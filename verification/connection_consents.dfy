/**
 The consent row that two roles advance, and the connection and grant rows beside it: every write is one guarded
 statement. The clock is the database's.
 */
module ConnectionConsents {
  import opened Wrappers

  type Uid = nat
  type ConnectionId = nat
  type GrantId = nat
  type Digest = nat
  type Scope = nat
  type Time = int

  /** `artvenn:read`, the only capability a grant may carry at this milestone. */
  const READ: Scope := 0

  datatype Preset = ReadOnly | Management
  datatype Decision = Approve | Deny

  /** What the provider writes when an interaction starts and will enforce. */
  datatype Enforced = Enforced(
    clientId: nat, resource: nat, capabilities: seq<Scope>, protocols: seq<Scope>, preset: Preset, issuedAt: Time,
    expiresAt: Time)

  /** What the control plane writes when the review page renders. */
  datatype Armed = Armed(ticket: Digest, human: nat, connection: ConnectionId)

  datatype Consent = Consent(
    enforced: Enforced, ticket: Option<Digest>, human: Option<nat>, connection: Option<ConnectionId>,
    decision: Option<Decision>, decidedAt: Option<Time>, generation: Option<nat>, resumedAt: Option<Time>,
    grantId: Option<GrantId>)

  datatype Status = AwaitingConsent | Authorized | Revoked

  datatype Connection = Connection(
    status: Status, generation: nat, revokedAt: Option<Time>, currentGrant: Option<GrantId>)

  /** The immutable snapshot of one grant. */
  datatype Grant = Grant(
    connection: ConnectionId, generation: nat, clientId: nat, human: nat, resource: nat, capabilities: seq<Scope>,
    protocols: seq<Scope>)

  datatype Tables = Tables(
    consents: map<Uid, Consent>, connections: map<ConnectionId, Connection>, grants: map<GrantId, Grant>)

  /** The couplings `parseConsentRow` checks of a row it reads back. */
  predicate Parses(row: Consent) {
    && (row.decision.None? <==> row.decidedAt.None?)
    && (row.generation.None? <==> row.decision != Some(Approve))
    && (row.resumedAt.Some? ==> row.decision == Some(Approve))
    && (row.grantId.Some? ==> row.resumedAt.Some?)
    && (row.decision.Some? ==> row.ticket.Some? && row.human.Some? && row.connection.Some?)
  }

  // ---- The provider opens, the control plane arms and decides, the provider resumes ----

  /** An interaction that exists stands; the table refuses another preset and a deadline that has passed. */
  predicate MayOpen(t: Tables, uid: Uid, enforced: Enforced, now: Time) {
    uid !in t.consents && enforced.preset.ReadOnly? && now < enforced.expiresAt
  }

  function Opened(enforced: Enforced, now: Time): Consent {
    Consent(enforced.(issuedAt := now), None, None, None, None, None, None, None, None)
  }

  predicate IsLive(t: Tables, uid: Uid, now: Time) {
    uid in t.consents && t.consents[uid].decidedAt.None? && t.consents[uid].enforced.expiresAt > now
  }

  /** A ticket digest is unique over the table, and the connection must exist. */
  predicate MayArm(t: Tables, uid: Uid, armed: Armed, now: Time) {
    && IsLive(t, uid, now) && armed.connection in t.connections
    && forall other :: other in t.consents && other != uid ==> t.consents[other].ticket != Some(armed.ticket)
  }

  function ArmedRow(row: Consent, armed: Armed): Consent {
    row.(ticket := Some(armed.ticket), human := Some(armed.human), connection := Some(armed.connection))
  }

  datatype Deciding = Deciding(ticket: Digest, human: nat, decision: Decision, generation: Option<nat>)

  predicate MayDecide(t: Tables, uid: Uid, d: Deciding, now: Time) {
    && (d.generation.None? <==> d.decision != Approve)
    && IsLive(t, uid, now) && t.consents[uid].ticket == Some(d.ticket) && t.consents[uid].human == Some(d.human)
  }

  function DecidedRow(row: Consent, d: Deciding, now: Time): Consent {
    row.(decision := Some(d.decision), decidedAt := Some(now), generation := d.generation)
  }

  predicate MayResume(t: Tables, uid: Uid) {
    uid in t.consents && t.consents[uid].decision == Some(Approve) && t.consents[uid].resumedAt.None?
  }

  function ResumedRow(row: Consent, grantId: GrantId, now: Time): Consent {
    row.(resumedAt := Some(now), grantId := Some(grantId))
  }

  // ---- Connections and grants ----

  predicate MayPoint(t: Tables, id: ConnectionId, generation: nat) {
    && id in t.connections && t.connections[id].generation == generation
    && t.connections[id].status.Authorized? && t.connections[id].revokedAt.None?
  }

  /**
   What the lifecycle of a connection, which is not part of this model, may do: the generation never falls, and only
   pointing names a grant.
   */
  predicate MayMove(t: Tables, id: ConnectionId, moved: Connection) {
    if id in t.connections then
      t.connections[id].generation <= moved.generation && moved.currentGrant == t.connections[id].currentGrant
    else moved.currentGrant.None?
  }

  // ---- The stores ----

  class Stores {
    var consents: map<Uid, Consent>
    var connections: map<ConnectionId, Connection>
    var grants: map<GrantId, Grant>

    constructor ()
      ensures Snapshot() == Tables(map[], map[], map[])
    {
      consents, connections, grants := map[], map[], map[];
    }

    function Snapshot(): Tables
      reads this
    {
      Tables(consents, connections, grants)
    }

    method Open(uid: Uid, enforced: Enforced, now: Time) returns (consent: Option<Consent>)
      modifies `consents
      ensures consent.Some? <==> MayOpen(old(Snapshot()), uid, enforced, now)
      ensures consent.Some? ==>
        consents == old(consents)[uid := Opened(enforced, now)] && consent.value == consents[uid]
      ensures consent.None? ==> consents == old(consents)
    {
      if uid in consents || enforced.preset.Management? || enforced.expiresAt <= now {
        return None;
      }
      consents := consents[uid := Opened(enforced, now)];
      return Some(consents[uid]);
    }

    method Arm(uid: Uid, armed: Armed, now: Time) returns (consent: Option<Consent>)
      modifies `consents
      ensures consent.Some? <==> MayArm(old(Snapshot()), uid, armed, now)
      ensures consent.Some? ==>
        consents == old(consents)[uid := ArmedRow(old(consents)[uid], armed)] && consent.value == consents[uid]
      ensures consent.None? ==> consents == old(consents)
    {
      if uid !in consents { return None; }
      var row := consents[uid];
      if row.decidedAt.Some? || row.enforced.expiresAt <= now { return None; }
      if armed.connection !in connections { return None; }
      if exists other :: other in consents && other != uid && consents[other].ticket == Some(armed.ticket) {
        return None;
      }
      consents := consents[uid := row.(
        ticket := Some(armed.ticket), human := Some(armed.human), connection := Some(armed.connection))];
      return Some(consents[uid]);
    }

    method Decide(uid: Uid, d: Deciding, now: Time) returns (consent: Option<Consent>)
      modifies `consents
      ensures consent.Some? <==> MayDecide(old(Snapshot()), uid, d, now)
      ensures consent.Some? ==>
        consents == old(consents)[uid := DecidedRow(old(consents)[uid], d, now)] && consent.value == consents[uid]
      ensures consent.None? ==> consents == old(consents)
    {
      if (d.generation.None?) != (d.decision != Approve) { return None; }
      if uid !in consents { return None; }
      var row := consents[uid];
      if row.ticket != Some(d.ticket) || row.human != Some(d.human) { return None; }
      if row.decidedAt.Some? || row.enforced.expiresAt <= now { return None; }
      consents := consents[uid := row.(
        decision := Some(d.decision), decidedAt := Some(now), generation := d.generation)];
      return Some(consents[uid]);
    }

    method Resume(uid: Uid, grantId: GrantId, now: Time) returns (consent: Option<Consent>)
      modifies `consents
      ensures consent.Some? <==> MayResume(old(Snapshot()), uid)
      ensures consent.Some? ==>
        consents == old(consents)[uid := ResumedRow(old(consents)[uid], grantId, now)] && consent.value == consents[uid]
      ensures consent.None? ==> consents == old(consents)
    {
      if uid !in consents || consents[uid].decision != Some(Approve) || consents[uid].resumedAt.Some? { return None; }
      consents := consents[uid := consents[uid].(resumedAt := Some(now), grantId := Some(grantId))];
      return Some(consents[uid]);
    }

    /** A grant id that exists keeps the grant it has. */
    method CreateGrant(grantId: GrantId, grant: Grant) returns (created: bool)
      modifies `grants
      ensures created <==> grantId !in old(grants)
      ensures grants == if created then old(grants)[grantId := grant] else old(grants)
    {
      if grantId in grants { return false; }
      grants := grants[grantId := grant];
      return true;
    }

    method SetCurrentGrant(id: ConnectionId, grantId: GrantId, generation: nat) returns (pointed: bool)
      modifies `connections
      ensures pointed <==> MayPoint(old(Snapshot()), id, generation)
      ensures pointed ==> connections == old(connections)[id := old(connections)[id].(currentGrant := Some(grantId))]
      ensures !pointed ==> connections == old(connections)
    {
      if id !in connections { return false; }
      var c := connections[id];
      if c.generation != generation || !c.status.Authorized? || c.revokedAt.Some? { return false; }
      connections := connections[id := c.(currentGrant := Some(grantId))];
      return true;
    }
  }
}
