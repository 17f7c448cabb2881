/**
 What the history of a run says: what a granted resume went through, step by step, and when a consent is opened, armed
 and decided. Only stored columns, the clock and the events are spoken of.
 */
module ConnectionResumeTraces {
  import opened Sequences
  import opened Wrappers
  import opened ConnectionConsents
  import opened ConnectionResume
  import opened ConnectionResumeRuns

  // ---- What one resume went through ----

  /** The resume began for this interaction, as the browser's own cookie named it. */
  ghost predicate Begun(events: seq<Event>, run: RunId, uid: Uid, interaction: Option<Interaction>) {
    exists i :: 0 <= i < |events| && events[i] == Begin(run, uid, interaction)
  }

  ghost predicate BegunByItself(events: seq<Event>, run: RunId, uid: Uid, clientId: nat) {
    exists interaction :: Begun(events, run, uid, Some(interaction))
      && interaction.uid == uid && interaction.clientId == clientId
  }

  /** At this point the resume read the consent: approved, unspent, attributed, in time, and within the milestone. */
  ghost predicate ReadAt(start: Time, events: seq<Event>, i: nat, run: RunId, uid: Uid, copy: Consent)
    requires i < |events|
  {
    var w := Run(start, events[..i]);
    && events[i].Advance? && events[i].run == run && run in w.stages && w.stages[run].Began?
    && uid in w.tables.consents && w.tables.consents[uid] == copy
    && copy.decision == Some(Approve) && copy.resumedAt.None?
    && copy.connection.Some? && copy.human.Some? && copy.generation.Some?
    && w.now < copy.enforced.expiresAt && copy.enforced.preset == ReadOnly && copy.enforced.capabilities == [READ]
  }

  /** The connection that the consent names is authorized, not revoked, and at the consented generation. */
  ghost predicate StandsWhereConsented(t: Tables, copy: Consent) {
    && copy.connection.Some? && copy.connection.value in t.connections
    && t.connections[copy.connection.value].status == Authorized
    && t.connections[copy.connection.value].revokedAt == None
    && Some(t.connections[copy.connection.value].generation) == copy.generation
  }

  /** At this point, with nothing written yet, the resume found the connection where the consent left it. */
  ghost predicate FoundAt(start: Time, events: seq<Event>, i: nat, run: RunId, copy: Consent)
    requires i < |events|
  {
    var w := Run(start, events[..i]);
    && events[i].Advance? && events[i].run == run && run in w.stages && w.stages[run].ReadConsent?
    && StandsWhereConsented(w.tables, copy)
  }

  /** At this point the resume pointed the connection at its grant, and the connection was where the consent left it. */
  ghost predicate PointsAt(start: Time, events: seq<Event>, i: nat, run: RunId, copy: Consent, grantId: GrantId)
    requires i < |events|
  {
    var w := Run(start, events[..i]);
    && events[i].Advance? && events[i].run == run && run in w.stages && w.stages[run].Recorded?
    && StandsWhereConsented(w.tables, copy)
    && Step(w, events[i]).tables.connections
       == w.tables.connections[copy.connection.value :=
            w.tables.connections[copy.connection.value].(currentGrant := Some(grantId))]
  }

  /** At this point the resume spent the consent, which was approved and not spent. */
  ghost predicate SpendsAt(start: Time, events: seq<Event>, i: nat, run: RunId, uid: Uid, grantId: GrantId)
    requires i < |events|
  {
    var w := Run(start, events[..i]);
    && events[i].Advance? && events[i].run == run && run in w.stages && w.stages[run].Pointed?
    && uid in w.tables.consents && w.tables.consents[uid].decision == Some(Approve)
    && w.tables.consents[uid].resumedAt == None
    && Step(w, events[i]).tables.consents
       == w.tables.consents[uid := w.tables.consents[uid].(resumedAt := Some(w.now), grantId := Some(grantId))]
  }

  ghost predicate WasRead(start: Time, events: seq<Event>, run: RunId, uid: Uid, copy: Consent) {
    exists i :: 0 <= i < |events| && ReadAt(start, events, i, run, uid, copy)
  }

  ghost predicate WasFound(start: Time, events: seq<Event>, run: RunId, copy: Consent) {
    exists i :: 0 <= i < |events| && FoundAt(start, events, i, run, copy)
  }

  ghost predicate HasPointed(start: Time, events: seq<Event>, run: RunId, copy: Consent, grantId: GrantId) {
    exists i :: 0 <= i < |events| && PointsAt(start, events, i, run, copy, grantId)
  }

  ghost predicate HasSpent(start: Time, events: seq<Event>, run: RunId, uid: Uid, grantId: GrantId) {
    exists i :: 0 <= i < |events| && SpendsAt(start, events, i, run, uid, grantId)
  }

  /** Where a resume stands tells what it went through. */
  ghost predicate Traced(start: Time, events: seq<Event>, run: RunId, s: Stage) {
    && (s.Began? ==> Begun(events, run, s.uid, s.interaction))
    && (HasCopy(s) ==>
          && BegunByItself(events, run, s.uid, s.copy.enforced.clientId)
          && WasRead(start, events, run, s.uid, s.copy))
    && (HasCopy(s) && !s.ReadConsent? ==> WasFound(start, events, run, s.copy))
    && (s.Pointed? || s.Granted? ==> HasPointed(start, events, run, s.copy, s.grantId))
    && (s.Granted? ==> HasSpent(start, events, run, s.uid, s.grantId))
  }

  lemma BegunEarlier(events: seq<Event>, n: nat, run: RunId)
    requires n <= |events|
    ensures forall uid, interaction ::
      Begun(events[..n], run, uid, interaction) ==> Begun(events, run, uid, interaction)
    ensures forall uid, clientId ::
      BegunByItself(events[..n], run, uid, clientId) ==> BegunByItself(events, run, uid, clientId)
  {
    forall uid, interaction | Begun(events[..n], run, uid, interaction) ensures Begun(events, run, uid, interaction) {
      var i :| 0 <= i < n && events[..n][i] == Begin(run, uid, interaction);
      assert events[i] == Begin(run, uid, interaction);
    }
  }

  lemma ReadEarlier(start: Time, events: seq<Event>, n: nat, run: RunId, uid: Uid, copy: Consent)
    requires n <= |events| && WasRead(start, events[..n], run, uid, copy)
    ensures WasRead(start, events, run, uid, copy)
  {
    var i :| 0 <= i < n && ReadAt(start, events[..n], i, run, uid, copy);
    Shorter(events, n, i);
    assert ReadAt(start, events, i, run, uid, copy);
  }

  lemma FoundEarlier(start: Time, events: seq<Event>, n: nat, run: RunId, copy: Consent)
    requires n <= |events| && WasFound(start, events[..n], run, copy)
    ensures WasFound(start, events, run, copy)
  {
    var i :| 0 <= i < n && FoundAt(start, events[..n], i, run, copy);
    Shorter(events, n, i);
    assert FoundAt(start, events, i, run, copy);
  }

  lemma PointsEarlier(start: Time, events: seq<Event>, n: nat, run: RunId, copy: Consent, grantId: GrantId)
    requires n <= |events| && HasPointed(start, events[..n], run, copy, grantId)
    ensures HasPointed(start, events, run, copy, grantId)
  {
    var i :| 0 <= i < n && PointsAt(start, events[..n], i, run, copy, grantId);
    Shorter(events, n, i);
    assert PointsAt(start, events, i, run, copy, grantId);
  }

  lemma SpendsEarlier(start: Time, events: seq<Event>, n: nat, run: RunId, uid: Uid, grantId: GrantId)
    requires n <= |events| && HasSpent(start, events[..n], run, uid, grantId)
    ensures HasSpent(start, events, run, uid, grantId)
  {
    var i :| 0 <= i < n && SpendsAt(start, events[..n], i, run, uid, grantId);
    Shorter(events, n, i);
    assert SpendsAt(start, events, i, run, uid, grantId);
  }

  lemma TracedEarlier(start: Time, events: seq<Event>, n: nat, run: RunId, s: Stage)
    requires n <= |events| && Traced(start, events[..n], run, s)
    ensures Traced(start, events, run, s)
  {
    BegunEarlier(events, n, run);
    if HasCopy(s) { ReadEarlier(start, events, n, run, s.uid, s.copy); }
    if HasCopy(s) && !s.ReadConsent? { FoundEarlier(start, events, n, run, s.copy); }
    if s.Pointed? || s.Granted? { PointsEarlier(start, events, n, run, s.copy, s.grantId); }
    if s.Granted? { SpendsEarlier(start, events, n, run, s.uid, s.grantId); }
  }

  /** One step of a resume adds what it went through there. */
  lemma AdvanceTraced(start: Time, events: seq<Event>, run: RunId)
    requires events != []
    requires var n := |events| - 1;
      && events[n].Advance? && events[n].run == run && run in Run(start, events[..n]).stages
      && Traced(start, events, run, Run(start, events[..n]).stages[run])
    ensures Traced(start, events, run, Run(start, events).stages[run])
  {
    var n := |events| - 1;
    var w := Run(start, events[..n]);
    var s, s' := w.stages[run], Run(start, events).stages[run];
    match s
    case Began(uid, interaction) =>
      if s'.ReadConsent? {
        assert ReadAt(start, events, n, run, uid, s'.copy);
        assert Begun(events, run, uid, Some(interaction.value));
      }
    case ReadConsent(_, copy) => if s'.ReadConnection? { assert FoundAt(start, events, n, run, copy); }
    case ReadConnection(_, _) =>
    case Saved(_, _, _) =>
    case Recorded(_, copy, grantId) => if s'.Pointed? { assert PointsAt(start, events, n, run, copy, grantId); }
    case Pointed(uid, _, grantId) => if s'.Granted? { assert SpendsAt(start, events, n, run, uid, grantId); }
    case Granted(_, _, _) =>
    case Refused(_) =>
  }

  lemma OthersStayWhereTheyAre(w: World, e: Event, run: RunId)
    requires run in Step(w, e).stages && !(e.Begin? && e.run == run) && !(e.Advance? && e.run == run)
    ensures run in w.stages && Step(w, e).stages[run] == w.stages[run]
  {
  }

  lemma {:induction false} StagesAreTraced(start: Time, events: seq<Event>, run: RunId)
    requires run in Run(start, events).stages
    ensures Traced(start, events, run, Run(start, events).stages[run])
  {
    var n := |events| - 1;
    var w, e := Run(start, events[..n]), events[n];
    if e.Begin? && e.run == run {
      assert Begun(events, run, e.uid, e.interaction);
    } else {
      if !(e.Advance? && e.run == run) { OthersStayWhereTheyAre(w, e, run); }
      StagesAreTraced(start, events[..n], run);
      TracedEarlier(start, events, n, run, w.stages[run]);
      if e.Advance? && e.run == run { AdvanceTraced(start, events, run); }
    }
  }

  /** A grant that says, column by column, what the consent says. */
  ghost predicate SaysAsConsented(grant: Grant, row: Consent) {
    && Some(grant.connection) == row.connection && Some(grant.generation) == row.generation
    && Some(grant.human) == row.human && grant.clientId == row.enforced.clientId
    && grant.resource == row.enforced.resource && grant.capabilities == row.enforced.capabilities
    && grant.protocols == row.enforced.protocols
  }

  /**
   What a granted resume went through. It began for its own interaction, whose client is the consent's. It read the
   consent before the deadline, approved and unspent, found the connection where the consent left it, and found it there
   again when it pointed it at the grant. It spent the consent; and the grant says what the consent says.
   */
  lemma GrantedResumeWentThrough(start: Time, events: seq<Event>, run: RunId)
    requires LawfulRun(start, events) && run in Run(start, events).stages && Run(start, events).stages[run].Granted?
    ensures var w := Run(start, events);
      var uid, grantId := w.stages[run].uid, w.stages[run].grantId;
      && uid in w.tables.consents
      && var row := w.tables.consents[uid];
         var unspent := row.(resumedAt := None, grantId := None);
         && BegunByItself(events, run, uid, row.enforced.clientId)
         && WasRead(start, events, run, uid, unspent) && WasFound(start, events, run, unspent)
         && HasPointed(start, events, run, unspent, grantId) && HasSpent(start, events, run, uid, grantId)
         && row.resumedAt.Some? && row.grantId == Some(grantId)
         && grantId in w.tables.grants && SaysAsConsented(w.tables.grants[grantId], row)
  {
    var w := Run(start, events);
    InterleavingsAreSound(start, events);
    StagesAreTraced(start, events, run);
    assert StageSafe(w, w.stages[run]);
  }

  // ---- Each step, exactly ----

  /** The first step goes on exactly if everything it reads is in order, and else says what is not. */
  lemma ReadsExactly(w: World, run: RunId, newId: GrantId)
    requires run in w.stages && w.stages[run].Began?
    ensures var uid, interaction := w.stages[run].uid, w.stages[run].interaction;
      var s' := Step(w, Advance(run, newId)).stages[run];
      var approved := uid in w.tables.consents
        && var row := w.tables.consents[uid];
           row.decision == Some(Approve) && row.resumedAt == None && row.connection != None && row.human != None
           && row.generation != None && w.now < row.enforced.expiresAt;
      if interaction.None? then s' == Refused(NotResumable)
      else if interaction.value.uid != uid then s' == Refused(InteractionMismatch)
      else if !approved then s' == Refused(ConsentNotGranted)
      else
        var enforced := w.tables.consents[uid].enforced;
        if enforced.clientId != interaction.value.clientId || enforced.preset != ReadOnly then
          s' == Refused(ConsentDoesNotMatch)
        else if enforced.capabilities != [READ] then s' == Refused(ScopeNotAvailable)
        else s'.ReadConsent? && s'.uid == uid && s'.copy == w.tables.consents[uid]
  {
  }

  /** The later steps go on exactly if the connection stands where it was consented, and the consent is unspent. */
  lemma LaterStepsExactly(w: World, run: RunId, newId: GrantId)
    requires run in w.stages && HasCopy(w.stages[run])
    ensures var s, s' := w.stages[run], Step(w, Advance(run, newId)).stages[run];
      && (s.ReadConsent? ==>
            s' == if StandsWhereConsented(w.tables, s.copy) then ReadConnection(s.uid, s.copy)
                  else Refused(ConnectionMoved))
      && (s.Recorded? ==>
            s' == if StandsWhereConsented(w.tables, s.copy) then Pointed(s.uid, s.copy, s.grantId)
                  else Refused(ConnectionMoved))
      && (s.Pointed? ==>
            s' == if s.uid in w.tables.consents && w.tables.consents[s.uid].decision == Some(Approve)
                    && w.tables.consents[s.uid].resumedAt == None then Granted(s.uid, s.copy, s.grantId)
                  else Refused(ConsentSpent))
  {
  }

  // ---- Opening ----

  /** An opening that the table takes, if the interaction is new: the preset is allowed and the deadline is ahead. */
  ghost predicate OpensInTime(start: Time, events: seq<Event>, i: nat, uid: Uid)
    requires i < |events|
  {
    && events[i].Open? && events[i].uid == uid && events[i].enforced.preset == ReadOnly
    && Run(start, events[..i]).now < events[i].enforced.expiresAt
  }

  /** The first such opening fixed what is enforced, issued at the clock of that moment. */
  ghost predicate FixedAt(start: Time, events: seq<Event>, i: nat, uid: Uid, enforced: Enforced)
    requires i < |events|
  {
    && OpensInTime(start, events, i, uid)
    && enforced == events[i].enforced.(issuedAt := Run(start, events[..i]).now)
    && forall j :: 0 <= j < i ==> !OpensInTime(start, events, j, uid)
  }

  ghost predicate WasFixed(start: Time, events: seq<Event>, uid: Uid, enforced: Enforced) {
    exists i :: 0 <= i < |events| && FixedAt(start, events, i, uid, enforced)
  }

  ghost predicate WasOpened(start: Time, events: seq<Event>, uid: Uid) {
    exists i :: 0 <= i < |events| && OpensInTime(start, events, i, uid)
  }

  lemma SameOpening(start: Time, events: seq<Event>, n: nat, i: nat, uid: Uid)
    requires i < n <= |events|
    ensures OpensInTime(start, events[..n], i, uid) <==> OpensInTime(start, events, i, uid)
  {
    Shorter(events, n, i);
  }

  lemma SameFixing(start: Time, events: seq<Event>, n: nat, i: nat, uid: Uid, enforced: Enforced)
    requires i < n <= |events|
    ensures FixedAt(start, events[..n], i, uid, enforced) <==> FixedAt(start, events, i, uid, enforced)
  {
    forall j | 0 <= j <= i ensures OpensInTime(start, events[..n], j, uid) <==> OpensInTime(start, events, j, uid) {
      SameOpening(start, events, n, j, uid);
    }
    Shorter(events, n, i);
  }

  lemma OpenedOneMore(start: Time, events: seq<Event>, uid: Uid, enforced: Enforced)
    requires events != []
    ensures var n := |events| - 1;
      && (WasOpened(start, events, uid) <==>
            WasOpened(start, events[..n], uid) || OpensInTime(start, events, n, uid))
      && (WasFixed(start, events, uid, enforced) <==>
            WasFixed(start, events[..n], uid, enforced) || FixedAt(start, events, n, uid, enforced))
      && (FixedAt(start, events, n, uid, enforced) ==> !WasOpened(start, events[..n], uid))
  {
    var n := |events| - 1;
    forall i | 0 <= i < n
      ensures OpensInTime(start, events[..n], i, uid) <==> OpensInTime(start, events, i, uid)
      ensures FixedAt(start, events[..n], i, uid, enforced) <==> FixedAt(start, events, i, uid, enforced)
    {
      SameOpening(start, events, n, i, uid);
      SameFixing(start, events, n, i, uid, enforced);
    }
  }

  lemma FixedNow(start: Time, events: seq<Event>, uid: Uid, enforced: Enforced)
    requires events != [] && !WasOpened(start, events[..|events| - 1], uid)
    ensures var n := |events| - 1;
      FixedAt(start, events, n, uid, enforced)
      <==> OpensInTime(start, events, n, uid)
           && enforced == events[n].enforced.(issuedAt := Run(start, events[..n]).now)
  {
    var n := |events| - 1;
    forall j | 0 <= j < n ensures !OpensInTime(start, events, j, uid) { SameOpening(start, events, n, j, uid); }
  }

  lemma EnforcedStep(w: World, e: Event, uid: Uid)
    ensures var consents := Step(w, e).tables.consents;
      && (uid in w.tables.consents ==>
            uid in consents && consents[uid].enforced == w.tables.consents[uid].enforced)
      && (uid !in w.tables.consents ==>
            && (uid in consents <==>
                  e.Open? && e.uid == uid && e.enforced.preset == ReadOnly && w.now < e.enforced.expiresAt)
            && (uid in consents ==> consents[uid].enforced == e.enforced.(issuedAt := w.now)))
  {
    if e.Advance? && e.run in w.stages {}
  }

  /** What a stored consent enforces was fixed by the first opening of its interaction that came in time. */
  lemma {:induction false} EnforcedTellsHistory(start: Time, events: seq<Event>, uid: Uid, enforced: Enforced)
    ensures var consents := Run(start, events).tables.consents;
      && (uid in consents <==> WasOpened(start, events, uid))
      && (uid in consents && consents[uid].enforced == enforced <==> WasFixed(start, events, uid, enforced))
  {
    if events == [] {
    } else {
      var n := |events| - 1;
      EnforcedTellsHistory(start, events[..n], uid, enforced);
      OpenedOneMore(start, events, uid, enforced);
      EnforcedStep(Run(start, events[..n]), events[n], uid);
      if !WasOpened(start, events[..n], uid) { FixedNow(start, events, uid, enforced); }
    }
  }

  // ---- Deciding and arming ----

  ghost predicate DecidesAt(start: Time, events: seq<Event>, i: nat, uid: Uid)
    requires i < |events|
  {
    var w := Run(start, events[..i]);
    events[i].Decide? && events[i].uid == uid && MayDecide(w.tables, uid, events[i].deciding, w.now)
  }

  /** A decision about the interaction was accepted. */
  ghost predicate HasDecision(start: Time, events: seq<Event>, uid: Uid) {
    exists i :: 0 <= i < |events| && DecidesAt(start, events, i, uid)
  }

  lemma DecisionOneMore(start: Time, events: seq<Event>, uid: Uid)
    requires events != []
    ensures var n := |events| - 1;
      HasDecision(start, events, uid) <==> HasDecision(start, events[..n], uid) || DecidesAt(start, events, n, uid)
  {
    var n := |events| - 1;
    forall i | 0 <= i < n ensures DecidesAt(start, events[..n], i, uid) <==> DecidesAt(start, events, i, uid) {
      Shorter(events, n, i);
    }
  }

  lemma DecisionStep(w: World, e: Event, uid: Uid)
    ensures (uid in Step(w, e).tables.consents && Step(w, e).tables.consents[uid].decidedAt != None)
      <==> (uid in w.tables.consents && w.tables.consents[uid].decidedAt != None)
           || (e.Decide? && e.uid == uid && MayDecide(w.tables, uid, e.deciding, w.now))
  {
    if e.Advance? && e.run in w.stages {}
  }

  lemma {:induction false} DecisionTellsHistory(start: Time, events: seq<Event>, uid: Uid)
    ensures var consents := Run(start, events).tables.consents;
      (uid in consents && consents[uid].decidedAt != None) <==> HasDecision(start, events, uid)
  {
    if events == [] {
    } else {
      var n := |events| - 1;
      DecisionTellsHistory(start, events[..n], uid);
      DecisionOneMore(start, events, uid);
      DecisionStep(Run(start, events[..n]), events[n], uid);
    }
  }

  /** The interaction was opened in time, its deadline is still ahead, and nothing was decided. */
  ghost predicate AwaitsDecision(start: Time, events: seq<Event>, uid: Uid) {
    && (exists enforced :: WasFixed(start, events, uid, enforced) && Run(start, events).now < enforced.expiresAt)
    && !HasDecision(start, events, uid)
  }

  lemma LiveAwaits(start: Time, events: seq<Event>, uid: Uid)
    ensures var w := Run(start, events); IsLive(w.tables, uid, w.now) <==> AwaitsDecision(start, events, uid)
  {
    var w := Run(start, events);
    DecisionTellsHistory(start, events, uid);
    if uid in w.tables.consents { EnforcedTellsHistory(start, events, uid, w.tables.consents[uid].enforced); }
    if enforced :| WasFixed(start, events, uid, enforced) && w.now < enforced.expiresAt {
      EnforcedTellsHistory(start, events, uid, enforced);
    }
  }

  /** A decision is accepted exactly with the ticket and human last armed, of an interaction that awaits it. */
  lemma DecidesExactly(start: Time, events: seq<Event>, uid: Uid, d: Deciding)
    ensures var w, arm := Run(start, events), LastArm(start, events, uid);
      MayDecide(w.tables, uid, d, w.now)
      <==> AwaitsDecision(start, events, uid) && (d.decision == Approve <==> d.generation != None)
           && arm != None && arm.value.ticket == d.ticket && arm.value.human == d.human
  {
    DecidesByTheLastArm(start, events, uid, d);
    LiveAwaits(start, events, uid);
  }

  ghost predicate HasMoved(events: seq<Event>, id: ConnectionId) {
    exists i :: 0 <= i < |events| && events[i].Move? && events[i].connection == id
  }

  lemma {:induction false} ConnectionsTellHistory(start: Time, events: seq<Event>, id: ConnectionId)
    ensures id in Run(start, events).tables.connections <==> HasMoved(events, id)
  {
    if events == [] {
    } else {
      var n := |events| - 1;
      ConnectionsTellHistory(start, events[..n], id);
      if i :| 0 <= i < n && events[..n][i].Move? && events[..n][i].connection == id { assert events[i].Move?; }
      if i :| 0 <= i < |events| && events[i].Move? && events[i].connection == id {
        if i < n { assert events[..n][i].Move?; }
      }
      ConnectionsStep(Run(start, events[..n]), events[n], id);
    }
  }

  lemma ConnectionsStep(w: World, e: Event, id: ConnectionId)
    ensures id in Step(w, e).tables.connections <==> id in w.tables.connections || (e.Move? && e.connection == id)
  {
    if e.Advance? && e.run in w.stages {}
  }

  /** The interaction was last armed with this ticket. */
  ghost predicate HoldsTicket(start: Time, events: seq<Event>, uid: Uid, ticket: Digest) {
    var arm := LastArm(start, events, uid);
    arm.Some? && arm.value.ticket == ticket
  }

  lemma TicketsTellHistory(start: Time, events: seq<Event>, uid: Uid, ticket: Digest)
    ensures var consents := Run(start, events).tables.consents;
      (uid in consents && consents[uid].ticket == Some(ticket)) <==> HoldsTicket(start, events, uid, ticket)
  {
    RowsCarryTheLastArm(start, events, uid);
  }

  /**
   An arming is accepted exactly of an interaction that awaits a decision, for a connection that exists, with a ticket
   that no other interaction was last armed with.
   */
  lemma ArmsExactly(start: Time, events: seq<Event>, uid: Uid, armed: Armed)
    ensures var w := Run(start, events);
      MayArm(w.tables, uid, armed, w.now)
      <==> AwaitsDecision(start, events, uid) && HasMoved(events, armed.connection)
           && forall other :: other != uid ==> !HoldsTicket(start, events, other, armed.ticket)
  {
    LiveAwaits(start, events, uid);
    ConnectionsTellHistory(start, events, armed.connection);
    forall other { TicketsTellHistory(start, events, other, armed.ticket); }
    ArmsIfFree(start, events, Run(start, events), uid, armed);
  }

  lemma ArmsIfFree(start: Time, events: seq<Event>, w: World, uid: Uid, armed: Armed)
    requires forall other ::
      (other in w.tables.consents && w.tables.consents[other].ticket == Some(armed.ticket))
      <==> HoldsTicket(start, events, other, armed.ticket)
    ensures MayArm(w.tables, uid, armed, w.now)
      <==> IsLive(w.tables, uid, w.now) && armed.connection in w.tables.connections
           && forall other :: other != uid ==> !HoldsTicket(start, events, other, armed.ticket)
  {
    if MayArm(w.tables, uid, armed, w.now) {
      forall other | other != uid ensures !HoldsTicket(start, events, other, armed.ticket) {
        assert other in w.tables.consents ==> w.tables.consents[other].ticket != Some(armed.ticket);
      }
    }
    if forall other :: other != uid ==> !HoldsTicket(start, events, other, armed.ticket) {
      forall other | other in w.tables.consents && other != uid
        ensures w.tables.consents[other].ticket != Some(armed.ticket)
      {
        assert !HoldsTicket(start, events, other, armed.ticket);
      }
    }
  }
}
