/**
  Organization membership: one owner per organization, and invitations that are accepted, declined,
  cancelled or left to expire.
 */
module Organizations {
  import opened Wrappers

  type Id = string

  datatype Role = OWNER | ADMIN | MEMBER

  /** The key of a membership row. */
  datatype Seat = Seat(organizationId: Id, userId: Id)

  type Members = map<Seat, Role>

  datatype Invitation = Invitation(organizationId: Id, email: string, role: Role, expiresAt: int,
                                   acceptedAt: Option<int>, declinedAt: Option<int>)

  /** Invitations by their token. */
  type Invitations = map<string, Invitation>

  const INVITATION_EXPIRES_IN := 7 * 24 * 60 * 60 * 1000

  /** What a call throws; a violated unique constraint is the database's own error. */
  datatype Failure = Refused(error: Error) | UniqueViolation

  datatype Outcome = Done | Failed(failure: Failure)

  // ----- owners -----

  predicate IsOwner(m: Members, organizationId: Id, userId: Id) {
    Seat(organizationId, userId) in m && m[Seat(organizationId, userId)] == OWNER
  }

  ghost predicate OneOwner(m: Members, organizationId: Id) {
    exists u :: IsOwner(m, organizationId, u) && forall v :: IsOwner(m, organizationId, v) ==> v == u
  }

  /** Same owners, same single owner. */
  lemma SameOwners(m: Members, m': Members, o: Id)
    requires OneOwner(m, o) && forall u :: IsOwner(m', o, u) <==> IsOwner(m, o, u)
    ensures OneOwner(m', o)
  {
    var u :| IsOwner(m, o, u) && forall v :: IsOwner(m, o, v) ==> v == u;
    assert IsOwner(m', o, u);
  }

  lemma OnlyOwner(m: Members, o: Id, u: Id)
    requires IsOwner(m, o, u) && forall v :: IsOwner(m, o, v) ==> v == u
    ensures OneOwner(m, o)
  {
  }

  /** Writing or deleting a seat that neither was nor becomes an owner's changes no owner. */
  lemma NonOwnerSeat(m: Members, seat: Seat, role: Role, o: Id)
    requires OneOwner(m, o) && role != OWNER && (seat in m ==> m[seat] != OWNER)
    ensures OneOwner(m[seat := role], o) && OneOwner(m - {seat}, o)
  {
    SameOwners(m, m[seat := role], o);
    SameOwners(m, m - {seat}, o);
  }

  function Transferred(m: Members, organizationId: Id, current: Id, next: Id): Members {
    m[Seat(organizationId, current) := ADMIN][Seat(organizationId, next) := OWNER]
  }

  lemma TransferKeepsOneOwner(m: Members, organizationId: Id, current: Id, next: Id, o: Id)
    requires OneOwner(m, o) && IsOwner(m, organizationId, current) && current != next
    ensures OneOwner(Transferred(m, organizationId, current, next), o)
    ensures o == organizationId ==> forall v :: IsOwner(Transferred(m, organizationId, current, next), o, v) <==> v == next
  {
    var m' := Transferred(m, organizationId, current, next);
    if o == organizationId {
      forall v ensures IsOwner(m', o, v) <==> v == next {
        assert IsOwner(m, o, v) ==> v == current;
      }
      OnlyOwner(m', o, next);
    } else {
      SameOwners(m, m', o);
    }
  }

  // ----- invitations -----

  predicate Undecided(i: Invitation) {
    i.acceptedAt.None? && i.declinedAt.None?
  }

  predicate Pending(i: Invitation, now: int) {
    Undecided(i) && i.expiresAt > now
  }

  predicate PendingFor(t: Invitations, token: string, organizationId: Id, email: string, now: int) {
    token in t && t[token].organizationId == organizationId && t[token].email == email && Pending(t[token], now)
  }

  ghost predicate OnePending(t: Invitations, now: int) {
    forall o, e, a, b :: PendingFor(t, a, o, e, now) && PendingFor(t, b, o, e, now) ==> a == b
  }

  /** An invitation to the organization, for this address, that is neither decided nor expired. */
  predicate IsOpen(i: Invitation, organizationId: Id, email: string, now: int) {
    i.organizationId == organizationId && i.email == email && i.acceptedAt == None && i.declinedAt == None
    && now < i.expiresAt
  }

  function Seated(m: Members, i: Invitation, userId: Id): Members {
    m[Seat(i.organizationId, userId) := i.role]
  }

  /** Never both accepted and declined, and never an invitation to become the owner. */
  predicate Sound(t: Invitations) {
    forall k :: k in t ==> t[k].role != OWNER && (t[k].acceptedAt.None? || t[k].declinedAt.None?)
  }

  /** What was pending only becomes less: as time passes, and as invitations are decided or deleted. */
  lemma FewerPending(t: Invitations, now: int, t': Invitations, later: int)
    requires OnePending(t, now)
    requires forall k, o, e :: PendingFor(t', k, o, e, later) ==> PendingFor(t, k, o, e, now)
    ensures OnePending(t', later)
  {
    forall o, e, a, b | PendingFor(t', a, o, e, later) && PendingFor(t', b, o, e, later) ensures a == b {
      assert PendingFor(t, a, o, e, now) && PendingFor(t, b, o, e, now);
    }
  }

  lemma InvitedOnce(t: Invitations, now: int, token: string, i: Invitation)
    requires OnePending(t, now) && token !in t
    requires forall k :: !PendingFor(t, k, i.organizationId, i.email, now)
    ensures OnePending(t[token := i], now)
  {
    var t' := t[token := i];
    forall o, e, a, b | PendingFor(t', a, o, e, now) && PendingFor(t', b, o, e, now) ensures a == b {
      assert a != token ==> PendingFor(t, a, o, e, now);
      assert b != token ==> PendingFor(t, b, o, e, now);
    }
  }

  // ----- the service -----

  class OrganizationService {
    /** The e-mail address of each user. */
    const users: map<Id, string>
    var organizations: set<Id>
    var members: Members
    var invitations: Invitations
    /** The time of the last call. */
    ghost var clock: int

    ghost predicate Valid()
      reads this
    {
      && (forall o :: o in organizations ==> OneOwner(members, o))
      && (forall s :: s in members ==> s.organizationId in organizations)
      && (forall k :: k in invitations ==> invitations[k].organizationId in organizations)
      && OnePending(invitations, clock) && Sound(invitations)
    }

    constructor (users: map<Id, string>, now: int)
      ensures Valid() && organizations == {} && members == map[] && invitations == map[] && clock == now
    {
      this.users := users;
      organizations, members, invitations := {}, map[], map[];
      clock := now;
    }

    method Create(userId: Id, newId: Id)
      requires Valid() && newId !in organizations
      modifies this`organizations, this`members
      ensures Valid()
      ensures organizations == old(organizations) + {newId}
      ensures members == old(members)[Seat(newId, userId) := OWNER]
    {
      forall o | o in organizations ensures OneOwner(members[Seat(newId, userId) := OWNER], o) {
        SameOwners(members, members[Seat(newId, userId) := OWNER], o);
      }
      organizations := organizations + {newId};
      members := members[Seat(newId, userId) := OWNER];
      OnlyOwner(members, newId, userId);
    }

    method Invite(organizationId: Id, email: string, role: Role, token: string, now: int) returns (r: Outcome)
      requires Valid() && clock <= now && role != OWNER && token !in invitations
      modifies this`invitations, this`clock
      ensures Valid() && clock == now
      ensures r.Done? ==> invitations == old(invitations)[token :=
        Invitation(organizationId, email, role, now + 7 * 24 * 60 * 60 * 1000, None, None)]
      ensures r.Failed? ==> invitations == old(invitations)
      ensures r == (
        if organizationId !in organizations then Failed(Refused(NotFound))
        else if (exists u :: u in users && users[u] == email && Seat(organizationId, u) in members)
          || (exists k :: k in old(invitations) && IsOpen(old(invitations)[k], organizationId, email, now))
          then Failed(Refused(Conflict))
        else Done)
    {
      FewerPending(invitations, clock, invitations, now);
      clock := now;
      if organizationId !in organizations {
        return Failed(Refused(NotFound));
      }
      if exists u :: u in users && users[u] == email && Seat(organizationId, u) in members {
        return Failed(Refused(Conflict));
      }
      if exists k :: k in invitations && PendingFor(invitations, k, organizationId, email, now) {
        return Failed(Refused(Conflict));
      }
      var invitation := Invitation(organizationId, email, role, now + INVITATION_EXPIRES_IN, None, None);
      InvitedOnce(invitations, now, token, invitation);
      invitations := invitations[token := invitation];
      r := Done;
    }

    /** Whether the user may still decide on the invitation. */
    function Decision(token: string, userId: Id, now: int): Outcome
      reads this
    {
      if token !in invitations then Failed(Refused(NotFound))
      else if !Undecided(invitations[token]) || invitations[token].expiresAt < now then Failed(Refused(Conflict))
      else if userId !in users || users[userId] != invitations[token].email then Failed(Refused(NotAuthorized))
      else Done
    }

    method AcceptInvitation(token: string, userId: Id, now: int) returns (r: Outcome)
      requires Valid() && clock <= now
      modifies this`members, this`invitations, this`clock
      ensures Valid() && clock == now
      ensures old(Decision(token, userId, now)).Failed? ==> r == old(Decision(token, userId, now))
      ensures old(Decision(token, userId, now)).Done? ==>
        r == if Seat(old(invitations)[token].organizationId, userId) in old(members) then Failed(UniqueViolation) else Done
      ensures r.Done? ==> invitations == old(invitations)[token := old(invitations)[token].(acceptedAt := Some(now))]
      ensures r == (
        if token !in old(invitations) then Failed(Refused(NotFound))
        else if old(invitations)[token].acceptedAt.Some? || old(invitations)[token].declinedAt.Some?
                || old(invitations)[token].expiresAt < now then Failed(Refused(Conflict))
        else if userId !in users || users[userId] != old(invitations)[token].email then Failed(Refused(NotAuthorized))
        else if Seat(old(invitations)[token].organizationId, userId) in old(members) then Failed(UniqueViolation) else Done)
      ensures r.Done? ==> members == Seated(old(members), old(invitations)[token], userId)
      ensures r.Done? ==>
        members == old(members)[Seat(old(invitations)[token].organizationId, userId) := old(invitations)[token].role]
      ensures r.Failed? ==> members == old(members) && invitations == old(invitations)
    {
      FewerPending(invitations, clock, invitations, now);
      clock := now;
      r := Decision(token, userId, now);
      if r.Failed? {
        return;
      }
      var invitation := invitations[token];
      var seat := Seat(invitation.organizationId, userId);
      var decided := invitations[token := invitation.(acceptedAt := Some(now))];
      if seat in members {
        return Failed(UniqueViolation);
      }
      FewerPending(invitations, now, decided, now);
      forall o | o in organizations ensures OneOwner(members[seat := invitation.role], o) {
        NonOwnerSeat(members, seat, invitation.role, o);
      }
      invitations, members := decided, members[seat := invitation.role];
    }

    method DeclineInvitation(token: string, userId: Id, now: int) returns (r: Outcome)
      requires Valid() && clock <= now
      modifies this`invitations, this`clock
      ensures Valid() && clock == now
      ensures r == old(Decision(token, userId, now))
      ensures r == (
        if token !in old(invitations) then Failed(Refused(NotFound))
        else if old(invitations)[token].acceptedAt.Some? || old(invitations)[token].declinedAt.Some?
                || old(invitations)[token].expiresAt < now then Failed(Refused(Conflict))
        else if userId !in users || users[userId] != old(invitations)[token].email then Failed(Refused(NotAuthorized))
        else Done)
      ensures r.Done? ==> invitations == old(invitations)[token := old(invitations)[token].(declinedAt := Some(now))]
      ensures r.Failed? ==> invitations == old(invitations)
    {
      FewerPending(invitations, clock, invitations, now);
      clock := now;
      r := Decision(token, userId, now);
      if r.Failed? {
        return;
      }
      var decided := invitations[token := invitations[token].(declinedAt := Some(now))];
      FewerPending(invitations, now, decided, now);
      invitations := decided;
    }

    method CancelInvitation(organizationId: Id, token: string) returns (r: Outcome)
      requires Valid()
      modifies this`invitations
      ensures Valid()
      ensures r == (
        if token !in old(invitations) then Failed(Refused(NotFound))
        else if old(invitations)[token].organizationId != organizationId then Failed(Refused(NotAuthorized))
        else if old(invitations)[token].acceptedAt.Some? || old(invitations)[token].declinedAt.Some?
          then Failed(Refused(Conflict))
        else Done)
      ensures invitations == if r.Done? then old(invitations) - {token} else old(invitations)
    {
      if token !in invitations {
        return Failed(Refused(NotFound));
      }
      if invitations[token].organizationId != organizationId {
        return Failed(Refused(NotAuthorized));
      }
      if invitations[token].acceptedAt.Some? || invitations[token].declinedAt.Some? {
        return Failed(Refused(Conflict));
      }
      FewerPending(invitations, clock, invitations - {token}, clock);
      invitations := invitations - {token};
      r := Done;
    }

    method UpdateMemberRole(organizationId: Id, userId: Id, role: Role) returns (r: Outcome)
      requires Valid() && role != OWNER
      modifies this`members
      ensures Valid()
      ensures r == (
        if Seat(organizationId, userId) !in old(members) then Failed(Refused(NotFound))
        else if old(members)[Seat(organizationId, userId)] == OWNER then Failed(Refused(Conflict))
        else Done)
      ensures members == if r.Done? then old(members)[Seat(organizationId, userId) := role] else old(members)
    {
      var seat := Seat(organizationId, userId);
      if seat !in members {
        return Failed(Refused(NotFound));
      }
      if members[seat] == OWNER {
        return Failed(Refused(Conflict));
      }
      forall o | o in organizations ensures OneOwner(members[seat := role], o) {
        NonOwnerSeat(members, seat, role, o);
      }
      members := members[seat := role];
      r := Done;
    }

    method RemoveMember(organizationId: Id, userId: Id) returns (r: Outcome)
      requires Valid()
      modifies this`members
      ensures Valid()
      ensures r == (
        if Seat(organizationId, userId) !in old(members) then Failed(Refused(NotFound))
        else if old(members)[Seat(organizationId, userId)] == OWNER then Failed(Refused(Conflict))
        else Done)
      ensures members == if r.Done? then old(members) - {Seat(organizationId, userId)} else old(members)
    {
      var seat := Seat(organizationId, userId);
      if seat !in members {
        return Failed(Refused(NotFound));
      }
      if members[seat] == OWNER {
        return Failed(Refused(Conflict));
      }
      forall o | o in organizations ensures OneOwner(members - {seat}, o) {
        NonOwnerSeat(members, seat, MEMBER, o);
      }
      members := members - {seat};
      r := Done;
    }

    method TransferOwnership(organizationId: Id, currentOwnerId: Id, newOwnerId: Id) returns (r: Outcome)
      requires Valid()
      modifies this`members
      ensures Valid()
      ensures r == (
        if organizationId !in organizations then Failed(Refused(NotFound))
        else if currentOwnerId == newOwnerId then Failed(Refused(Conflict))
        else if Seat(organizationId, currentOwnerId) !in old(members)
                || old(members)[Seat(organizationId, currentOwnerId)] != OWNER then Failed(Refused(NotAuthorized))
        else if Seat(organizationId, newOwnerId) !in old(members) then Failed(Refused(NotFound))
        else Done)
      ensures members == if r.Done? then Transferred(old(members), organizationId, currentOwnerId, newOwnerId) else old(members)
      ensures r.Done? ==>
        members == old(members)[Seat(organizationId, currentOwnerId) := ADMIN][Seat(organizationId, newOwnerId) := OWNER]
      ensures r.Done? ==> forall v ::
        (Seat(organizationId, v) in members && members[Seat(organizationId, v)] == OWNER) <==> v == newOwnerId
    {
      if organizationId !in organizations {
        return Failed(Refused(NotFound));
      }
      if currentOwnerId == newOwnerId {
        return Failed(Refused(Conflict));
      }
      if Seat(organizationId, currentOwnerId) !in members || members[Seat(organizationId, currentOwnerId)] != OWNER {
        return Failed(Refused(NotAuthorized));
      }
      if Seat(organizationId, newOwnerId) !in members {
        return Failed(Refused(NotFound));
      }
      forall o | o in organizations
        ensures OneOwner(Transferred(members, organizationId, currentOwnerId, newOwnerId), o)
        ensures o == organizationId ==> forall v ::
                  IsOwner(Transferred(members, organizationId, currentOwnerId, newOwnerId), o, v) <==> v == newOwnerId
      {
        TransferKeepsOneOwner(members, organizationId, currentOwnerId, newOwnerId, o);
      }
      members := members[Seat(organizationId, currentOwnerId) := ADMIN];
      members := members[Seat(organizationId, newOwnerId) := OWNER];
      forall v ensures
        (Seat(organizationId, v) in members && members[Seat(organizationId, v)] == OWNER) <==> v == newOwnerId
      {
        assert IsOwner(members, organizationId, v) <==> v == newOwnerId;
      }
      r := Done;
    }
  }
}
