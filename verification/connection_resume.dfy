/**
 `resumeInteraction` as the steps it takes, each one read or one guarded write, so that any number of resumes can be
 interleaved with each other, with the control plane and with connections that move.
 */
module ConnectionResume {
  import opened Wrappers
  import opened ConnectionConsents

  type RunId = nat

  /** The interaction the browser's own cookie names, with the client of its request. */
  datatype Interaction = Interaction(uid: Uid, clientId: nat)

  datatype Refusal =
    | NotResumable | InteractionMismatch | ConsentNotGranted | ConsentDoesNotMatch | ScopeNotAvailable
    | ConnectionMoved | ConsentSpent

  /** A consent as read, once it is known to carry everything a grant needs. */
  type Attributed = c: Consent | c.connection.Some? && c.human.Some? && c.generation.Some?
    witness Consent(
      Enforced(0, 0, [], [], ReadOnly, 0, 1), Some(0), Some(0), Some(0), Some(Approve), Some(0), Some(0), None, None)

  /** Where one resume stands, with the local values it holds there. */
  datatype Stage =
    | Began(uid: Uid, interaction: Option<Interaction>)
    | ReadConsent(uid: Uid, copy: Attributed)
    | ReadConnection(uid: Uid, copy: Attributed)
    | Saved(uid: Uid, copy: Attributed, grantId: GrantId)
    | Recorded(uid: Uid, copy: Attributed, grantId: GrantId)
    | Pointed(uid: Uid, copy: Attributed, grantId: GrantId)
    | Granted(uid: Uid, copy: Attributed, grantId: GrantId)
    | Refused(refusal: Refusal)

  /** What the consent as read must be, and when: approved, unspent, attributed and within its deadline. */
  predicate IsGranted(row: Consent, now: Time) {
    && row.decision == Some(Approve) && row.resumedAt.None? && row.connection.Some? && row.human.Some?
    && row.generation.Some? && now < row.enforced.expiresAt
  }

  function CheckConsent(consents: map<Uid, Consent>, uid: Uid, interaction: Interaction, now: Time): Option<Refusal> {
    if uid !in consents || !IsGranted(consents[uid], now) then Some(ConsentNotGranted)
    else
      var row := consents[uid];
      if row.enforced.clientId != interaction.clientId || !row.enforced.preset.ReadOnly? then Some(ConsentDoesNotMatch)
      else if row.enforced.capabilities != [READ] then Some(ScopeNotAvailable)
      else None
  }

  function SnapshotOf(copy: Attributed): Grant {
    Grant(
      copy.connection.value, copy.generation.value, copy.enforced.clientId, copy.human.value, copy.enforced.resource,
      copy.enforced.capabilities, copy.enforced.protocols)
  }

  predicate HasCopy(s: Stage) { !s.Began? && !s.Refused? }

  predicate HasGrantId(s: Stage) { s.Saved? || s.Recorded? || s.Pointed? || s.Granted? }

  /** One step of a resume; `newId` is the id the provider would give a grant saved now. */
  function Next(t: Tables, s: Stage, newId: GrantId, now: Time): (Tables, Stage) {
    match s
    case Began(uid, interaction) =>
      if interaction.None? then (t, Refused(NotResumable))
      else if interaction.value.uid != uid then (t, Refused(InteractionMismatch))
      else
        var refusal := CheckConsent(t.consents, uid, interaction.value, now);
        if refusal.Some? then (t, Refused(refusal.value)) else (t, ReadConsent(uid, t.consents[uid]))
    case ReadConsent(uid, copy) =>
      if MayPoint(t, copy.connection.value, copy.generation.value) then (t, ReadConnection(uid, copy))
      else (t, Refused(ConnectionMoved))
    case ReadConnection(uid, copy) => (t, Saved(uid, copy, newId))
    case Saved(uid, copy, grantId) =>
      (t.(grants := if grantId in t.grants then t.grants else t.grants[grantId := SnapshotOf(copy)]),
       Recorded(uid, copy, grantId))
    case Recorded(uid, copy, grantId) =>
      var id := copy.connection.value;
      if MayPoint(t, id, copy.generation.value) then
        (t.(connections := t.connections[id := t.connections[id].(currentGrant := Some(grantId))]),
         Pointed(uid, copy, grantId))
      else (t, Refused(ConnectionMoved))
    case Pointed(uid, copy, grantId) =>
      if MayResume(t, uid) then
        (t.(consents := t.consents[uid := ResumedRow(t.consents[uid], grantId, now)]), Granted(uid, copy, grantId))
      else (t, Refused(ConsentSpent))
    case Granted(_, _, _) => (t, s)
    case Refused(_) => (t, s)
  }

  // ---- The procedure, step by step ----

  /** Everything one resume did, if nothing else happened in between. */
  ghost function RunOut(t: Tables, s: Stage, newId: GrantId, now: Time, steps: nat): (Tables, Stage)
    decreases steps
  {
    if steps == 0 then (t, s)
    else
      var (t', s') := Next(t, s, newId, now);
      RunOut(t', s', newId, now, steps - 1)
  }

  /** `resumeInteraction`, undisturbed: its early refusals and its writes are the six steps taken one after another. */
  method ResumeInteraction(stores: Stores, uid: Uid, interaction: Option<Interaction>, newId: GrantId, now: Time)
    returns (result: Stage)
    modifies stores
    ensures (stores.Snapshot(), result) == RunOut(old(stores.Snapshot()), Began(uid, interaction), newId, now, 6)
  {
    if interaction.None? { return Refused(NotResumable); }
    if interaction.value.uid != uid { return Refused(InteractionMismatch); }
    if uid !in stores.consents { return Refused(ConsentNotGranted); }
    var consent := stores.consents[uid];
    if consent.decision != Some(Approve) || consent.resumedAt.Some? || consent.connection.None?
      || consent.human.None? || consent.generation.None? || consent.enforced.expiresAt <= now
    {
      return Refused(ConsentNotGranted);
    }
    if consent.enforced.clientId != interaction.value.clientId || !consent.enforced.preset.ReadOnly? {
      return Refused(ConsentDoesNotMatch);
    }
    if consent.enforced.capabilities != [READ] { return Refused(ScopeNotAvailable); }
    var id, generation := consent.connection.value, consent.generation.value;
    if id !in stores.connections || !stores.connections[id].status.Authorized?
      || stores.connections[id].revokedAt.Some? || stores.connections[id].generation != generation
    {
      return Refused(ConnectionMoved);
    }
    var created := stores.CreateGrant(
      newId,
      Grant(
        id, generation, consent.enforced.clientId, consent.human.value, consent.enforced.resource,
        consent.enforced.capabilities, consent.enforced.protocols));
    var pointed := stores.SetCurrentGrant(id, newId, generation);
    if !pointed { return Refused(ConnectionMoved); }
    var spent := stores.Resume(uid, newId, now);
    if spent.None? { return Refused(ConsentSpent); }
    return Granted(uid, consent, newId);
  }
}
