/** The service calls as they run: rows are changed one by one, and a call that raises rolls back.
    Each method is proved to make exactly the step that the team model says. */
module TeamService {
  import opened Results
  import opened Team

  class Organization {
    const id: nat
    const creator: UserId
    const users: map<UserId, string>
    var isActive: bool
    var members: seq<Member>
    var invitations: seq<Invitation>
    var limit: SeatLimit
    var now: int
    var nextToken: nat

    function State(): Team
      reads this
    {
      Team(id, creator, isActive, users, members, invitations, limit, now, nextToken)
    }

    /** `create_organization`. */
    constructor (organization: nat, founder: UserId, ownerRole: nat, directory: map<UserId, string>,
                 plan: SeatLimit, clock: int)
      ensures State() == Founded(organization, founder, ownerRole, directory, plan, clock)
    {
      id, creator, users := organization, founder, directory;
      isActive, limit, now, nextToken := true, plan, clock, 0;
      invitations := [];
      members := [Member(founder, Role(ownerRole, organization, true, OWNER_ROLE_SLUG), true, None, founder)];
    }

    /** `seats_in_use`, as two counting queries. */
    method SeatsInUse() returns (n: nat)
      ensures n == Seats(State())
    {
      n := 0;
      for i := 0 to |members|
        invariant n == ActiveCount(members[..i])
      {
        assert members[..i + 1][..i] == members[..i];
        if members[i].active { n := n + 1; }
      }
      assert members[..|members|] == members;
      for i := 0 to |invitations|
        invariant n == ActiveCount(members) + LiveCount(invitations[..i], now)
      {
        assert invitations[..i + 1][..i] == invitations[..i];
        if IsLive(invitations[i], now) { n := n + 1; }
      }
      assert invitations[..|invitations|] == invitations;
    }

    method AssertSeatAvailable() returns (r: Option<Error>)
      ensures r == SeatError(State())
    {
      match limit
      case NoSubscription => return Some(SubscriptionRequired);
      case Unlimited => return None;
      case Limited(seats) =>
        var used := SeatsInUse();
        return if used >= seats then Some(UserLimitReached) else None;
    }

    method Create(inviter: UserId, granted: bool, rawEmail: string, role: Role) returns (r: Result<nat, Error>)
      modifies this
      ensures (State(), r) == CreateInvitation(old(State()), inviter, granted, rawEmail, role)
    {
      if !isActive { return Err(OrganizationNotFound); }
      var actor := Authorize(State(), inviter, granted);
      if actor.Err? { return Err(actor.error); }
      var refused := RoleError(members[actor.value].role, role, id);
      if refused.Some? { return Err(refused.value); }
      var email := Normalize(rawEmail);
      var member := MemberByEmail(State(), email);
      if member.Some? {
        return Err(if members[member.value].active then AlreadyMember else MembershipInactive);
      }
      var before := invitations;
      var pending := PendingByEmail(State(), email);
      if pending.Some? {
        if !IsExpired(invitations[pending.value], now) { return Err(AlreadyInvited); }
        invitations := invitations[pending.value := invitations[pending.value].(status := Revoked)];
      }
      var full := AssertSeatAvailable();
      if full.Some? {
        invitations := before;
        return Err(full.value);
      }
      r := Ok(|invitations|);
      invitations := invitations +
        [Invitation(email, role, Pending, nextToken, now + INVITATION_TTL, now, inviter, None)];
      nextToken := nextToken + 1;
    }

    method Resend(invitation: nat, actor: UserId, granted: bool) returns (r: Result<nat, Error>)
      modifies this
      ensures (State(), r) == ResendInvitation(old(State()), invitation, actor, granted)
    {
      var found := ManageableInvitation(State(), invitation, actor, granted);
      if found.Err? { return Err(found.error); }
      var i := found.value;
      if now - i.lastSentAt < RESEND_COOLDOWN { return Err(ResendTooSoon); }
      if IsExpired(i, now) {
        var full := AssertSeatAvailable();
        if full.Some? { return Err(full.value); }
      }
      invitations := invitations[invitation :=
        i.(token := nextToken, expiresAt := now + INVITATION_TTL, lastSentAt := now)];
      nextToken := nextToken + 1;
      r := Ok(invitation);
    }

    method Revoke(invitation: nat, actor: UserId, granted: bool) returns (r: Result<nat, Error>)
      modifies this`invitations
      ensures (State(), r) == RevokeInvitation(old(State()), invitation, actor, granted)
    {
      var found := ManageableInvitation(State(), invitation, actor, granted);
      if found.Err? { return Err(found.error); }
      invitations := invitations[invitation := found.value.(status := Revoked)];
      r := Ok(invitation);
    }

    method Accept(token: nat, user: UserId, verified: bool) returns (r: Result<nat, Error>)
      requires user in users
      modifies this`members, this`invitations
      ensures (State(), r) == AcceptInvitation(old(State()), token, user, verified)
    {
      var found := First(invitations, (i: Invitation) => i.token == token);
      if found.None? || !isActive { return Err(InvitationInvalid); }
      var at := found.value;
      var i := invitations[at];
      if i.status == Accepted {
        if i.acceptedBy == Some(user) {
          var existing := First(members, (m: Member) => m.invitation == Some(at));
          if existing.Some? { return Ok(existing.value); }
        }
        return Err(InvitationInvalid);
      }
      if i.status != Pending { return Err(InvitationInvalid); }
      if IsExpired(i, now) { return Err(InvitationExpired); }
      if !verified { return Err(EmailNotVerified); }
      if Normalize(users[user]) != i.email { return Err(EmailMismatch); }
      var existing := First(members, (m: Member) => m.user == user);
      if existing.Some? {
        return Err(if members[existing.value].active then AlreadyMember else MembershipInactive);
      }
      if i.role.organization != id { return Err(InvalidRole); }
      if limit == NoSubscription { return Err(SubscriptionRequired); }
      var used := SeatsInUse();
      if limit.Limited? && used > limit.seats { return Err(UserLimitReached); }
      r := Ok(|members|);
      members := members + [Member(user, i.role, true, Some(at), i.invitedBy)];
      invitations := invitations[at := i.(status := Accepted, acceptedBy := Some(user))];
    }

    method UpdateMember(member: nat, actor: UserId, role: Option<Role>, active: Option<bool>)
      returns (r: Result<nat, Error>)
      modifies this`members
      ensures (State(), r) == UpdateMembership(old(State()), member, actor, role, active)
    {
      var manager := ManagingActor(State(), member, actor);
      if manager.Err? { return Err(manager.error); }
      var row := members[member];
      if role.Some? && role.value.id != row.role.id {
        if !RoleGrantable(members[manager.value].role, role.value, id) { return Err(MembershipRuleViolation); }
        row := row.(role := role.value, grantedBy := actor);
      }
      if active.Some? {
        row := row.(active := active.value);
      }
      members := members[member := row];
      r := Ok(member);
    }

    method RemoveMember(member: nat, actor: UserId) returns (r: Result<nat, Error>)
      modifies this`members
      ensures (State(), r) == RemoveMembership(old(State()), member, actor)
    {
      var manager := ManagingActor(State(), member, actor);
      if manager.Err? { return Err(manager.error); }
      if members[member].active {
        members := members[member := members[member].(active := false)];
      }
      assert members == old(members)[member := old(members)[member].(active := false)];
      r := Ok(member);
    }
  }
}
