/** What holds of the team in every reachable state. */
module TeamInvariants {
  import opened Results
  import opened Team

  // ---------------------------------------------------------------- the invariant

  predicate UsersOk(users: map<UserId, string>)
  {
    forall u :: u in users ==> Strip(users[u]) == users[u]
  }

  /** Exactly one Owner: the creator, who is active; Administrators were made by the Owner. */
  predicate MembersOk(t: Team)
  {
    && (forall m :: 0 <= m < |t.members| ==> t.members[m].user in t.users)
    && (forall m, n :: 0 <= m < n < |t.members| ==> t.members[m].user != t.members[n].user)
    && |t.members| > 0 && t.members[0].user == t.creator && t.members[0].active
    && (forall m :: 0 <= m < |t.members| ==> (IsOwnerRole(t.members[m].role) <==> m == 0))
    && (forall m :: 0 <= m < |t.members| && IsAdministratorRole(t.members[m].role) ==>
          t.members[m].grantedBy == t.creator)
  }

  predicate InvitationOk(t: Team, i: Invitation)
  {
    && Lower(i.email) == i.email
    && i.role.organization == t.organization && !IsOwnerRole(i.role)
    && (IsAdministratorRole(i.role) ==> i.invitedBy == t.creator)
    && i.token < t.nextToken
  }

  predicate InvitationsOk(t: Team)
  {
    && (forall i :: 0 <= i < |t.invitations| ==> InvitationOk(t, t.invitations[i]))
    && (forall i, j :: 0 <= i < j < |t.invitations| ==> t.invitations[i].token != t.invitations[j].token)
  }

  /** At most one pending invitation for an address. */
  predicate OnePendingPerEmail(t: Team)
  {
    forall i, j | 0 <= i < j < |t.invitations| ::
      t.invitations[i].status == Pending && t.invitations[j].status == Pending ==>
        t.invitations[i].email != t.invitations[j].email
  }

  /** No pending invitation for the address of a member. */
  predicate NoMemberPending(t: Team)
  {
    forall i, m :: 0 <= i < |t.invitations| && 0 <= m < |t.members| && t.invitations[i].status == Pending ==>
      t.invitations[i].email != Normalize(EmailOf(t, t.members[m]))
  }

  /** A membership that came from an invitation belongs to the user who accepted it, under the
      invited address. */
  predicate Provenance(t: Team, m: Member)
  {
    m.invitation.Some? ==>
      && m.invitation.value < |t.invitations|
      && var i := t.invitations[m.invitation.value];
         i.status == Accepted && i.acceptedBy == Some(m.user) && i.email == Normalize(EmailOf(t, m))
  }

  /** Accepted invitations and the memberships they made correspond one to one. */
  predicate Links(t: Team)
  {
    && (forall m :: 0 <= m < |t.members| ==> Provenance(t, t.members[m]))
    && (forall m, n :: 0 <= m < n < |t.members| && t.members[m].invitation.Some? ==>
          t.members[m].invitation != t.members[n].invitation)
    && (forall i :: 0 <= i < |t.invitations| && t.invitations[i].status == Accepted ==> HasMember(t, i))
  }

  predicate HasMember(t: Team, i: nat)
  {
    exists m :: 0 <= m < |t.members| && t.members[m].invitation == Some(i)
  }

  predicate Inv(t: Team)
  {
    && UsersOk(t.users)
    && MembersOk(t) && InvitationsOk(t) && OnePendingPerEmail(t) && NoMemberPending(t) && Links(t)
  }

  // ---------------------------------------------------------------- preservation

  /** The Owner acts as member 0, and only the Owner does. */
  lemma EffectiveOwner(t: Team, actor: UserId)
    requires Inv(t)
    ensures EffectiveMember(t, actor).Some? ==>
              (IsOwnerRole(t.members[EffectiveMember(t, actor).value].role) <==> actor == t.creator)
    ensures Manager(t, actor).Some? ==>
              (IsOwnerRole(t.members[Manager(t, actor).value].role) <==> actor == t.creator)
  {
  }

  /** Closing a pending invitation. */
  lemma RevokingKeepsInv(t: Team, i: nat)
    requires Inv(t) && i < |t.invitations| && t.invitations[i].status == Pending
    ensures Inv(t.(invitations := t.invitations[i := t.invitations[i].(status := Revoked)]))
  {
    var u := t.(invitations := t.invitations[i := t.invitations[i].(status := Revoked)]);
    LinksSurvive(t, u);
  }

  /** Links look only at accepted invitations, which never change. */
  lemma LinksSurvive(t: Team, u: Team)
    requires Links(t) && u.members == t.members && u.users == t.users
    requires |u.invitations| >= |t.invitations|
    requires forall i :: 0 <= i < |t.invitations| && t.invitations[i].status == Accepted ==> u.invitations[i] == t.invitations[i]
    requires forall i :: 0 <= i < |u.invitations| && u.invitations[i].status == Accepted ==>
               i < |t.invitations| && t.invitations[i].status == Accepted
    ensures Links(u)
  {
    forall i | 0 <= i < |u.invitations| && u.invitations[i].status == Accepted ensures HasMember(u, i) {
      assert HasMember(t, i);
      var m :| 0 <= m < |t.members| && t.members[m].invitation == Some(i);
      assert u.members[m].invitation == Some(i);
    }
  }

  /** After retiring, nothing is pending for the address. */
  lemma RetiringKeepsInv(t: Team, email: string)
    requires Inv(t) && Lower(email) == email && RetireExpired(t, email).Ok?
    ensures var v := RetireExpired(t, email).value;
            && Inv(v) && v == t.(invitations := v.invitations)
            && forall j :: 0 <= j < |v.invitations| && v.invitations[j].status == Pending ==> v.invitations[j].email != email
  {
    var pending := PendingByEmail(t, email);
    if pending.Some? { RevokingKeepsInv(t, pending.value); }
    forall j | 0 <= j < |t.invitations| && t.invitations[j].status == Pending && t.invitations[j].email == email
      ensures pending == Some(j)
    {
      assert InvitationOk(t, t.invitations[j]);
      assert pending.Some? ==> InvitationOk(t, t.invitations[pending.value]);
    }
  }

  function NewInvitation(t: Team, inviter: UserId, email: string, role: Role): Invitation
  {
    Invitation(email, role, Pending, t.nextToken, t.now + INVITATION_TTL, t.now, inviter, None)
  }

  /** The roles the actor may hand out: none of another organization, never Owner, and Administrator
      only if the actor is the Owner. */
  predicate MayGrant(t: Team, actor: UserId, role: Role)
  {
    role.organization == t.organization && !IsOwnerRole(role) && (IsAdministratorRole(role) ==> actor == t.creator)
  }

  /** What a successful `create_invitation` has checked, and what it leaves. */
  lemma CreateEffect(t: Team, inviter: UserId, granted: bool, rawEmail: string, role: Role)
    requires Inv(t) && CreateInvitation(t, inviter, granted, rawEmail, role).1.Ok?
    ensures MayGrant(t, inviter, role)
    ensures MemberByEmail(t, Normalize(rawEmail)).None? && RetireExpired(t, Normalize(rawEmail)).Ok?
    ensures var v := RetireExpired(t, Normalize(rawEmail)).value;
            && SeatError(v).None?
            && CreateInvitation(t, inviter, granted, rawEmail, role).0
               == v.(invitations := v.invitations + [NewInvitation(v, inviter, Normalize(rawEmail), role)],
                     nextToken := v.nextToken + 1)
  {
    EffectiveOwner(t, inviter);
  }

  lemma CreateKeepsInv(t: Team, inviter: UserId, granted: bool, rawEmail: string, role: Role)
    requires Inv(t)
    ensures Inv(CreateInvitation(t, inviter, granted, rawEmail, role).0)
  {
    var (u, r) := CreateInvitation(t, inviter, granted, rawEmail, role);
    if r.Ok? {
      CreateEffect(t, inviter, granted, rawEmail, role);
      InvitingKeepsInv(t, inviter, Normalize(rawEmail), role) by { LowerTwice(Strip(rawEmail)); }
    }
  }

  lemma InvitingKeepsInv(t: Team, inviter: UserId, email: string, role: Role)
    requires Inv(t) && MayGrant(t, inviter, role) && Lower(email) == email
    requires MemberByEmail(t, email).None? && RetireExpired(t, email).Ok?
    ensures var v := RetireExpired(t, email).value;
            Inv(v.(invitations := v.invitations + [NewInvitation(v, inviter, email, role)], nextToken := v.nextToken + 1))
  {
    RetiringKeepsInv(t, email);
    NonMemberAddress(t, email);
    var v := RetireExpired(t, email).value;
    AddingKeepsInv(v, NewInvitation(v, inviter, email, role));
  }

  /** Stored addresses are trimmed, so the case-insensitive lookup finds every member with the address. */
  lemma NonMemberAddress(t: Team, email: string)
    requires UsersOk(t.users) && MembersOk(t) && Lower(email) == email && MemberByEmail(t, email).None?
    ensures forall m :: 0 <= m < |t.members| ==> Normalize(EmailOf(t, t.members[m])) != email
  {
    forall m | 0 <= m < |t.members| ensures Normalize(EmailOf(t, t.members[m])) != email {
      assert Lower(EmailOf(t, t.members[m])) != Lower(email);
    }
  }

  lemma AddingKeepsInv(t: Team, i: Invitation)
    requires Inv(t) && InvitationOk(t.(nextToken := t.nextToken + 1), i) && i.status == Pending && i.token == t.nextToken
    requires forall j :: 0 <= j < |t.invitations| && t.invitations[j].status == Pending ==> t.invitations[j].email != i.email
    requires forall m :: 0 <= m < |t.members| ==> Normalize(EmailOf(t, t.members[m])) != i.email
    ensures Inv(t.(invitations := t.invitations + [i], nextToken := t.nextToken + 1))
  {
    var u := t.(invitations := t.invitations + [i], nextToken := t.nextToken + 1);
    assert forall j :: 0 <= j < |t.invitations| ==> InvitationOk(t, t.invitations[j]);
    LinksSurvive(t, u);
  }

  lemma ResendKeepsInv(t: Team, id: nat, actor: UserId, granted: bool)
    requires Inv(t)
    ensures Inv(ResendInvitation(t, id, actor, granted).0)
  {
    var (u, r) := ResendInvitation(t, id, actor, granted);
    if r.Ok? {
      assert forall j :: 0 <= j < |t.invitations| ==> InvitationOk(t, t.invitations[j]);
      LinksSurvive(t, u);
    }
  }

  lemma AcceptKeepsInv(t: Team, token: nat, user: UserId, verified: bool)
    requires Inv(t) && user in t.users
    ensures Inv(AcceptInvitation(t, token, user, verified).0)
  {
    var (u, r) := AcceptInvitation(t, token, user, verified);
    if u != t {
      var id := First(t.invitations, (i: Invitation) => i.token == token).value;
      var i := t.invitations[id];
      assert InvitationOk(t, i);
      JoiningKeepsInv(t, id, user);
      assert u == Joined(t, id, user);
    }
  }

  /** The effect of a successful accept. */
  function Joined(t: Team, id: nat, user: UserId): Team
    requires id < |t.invitations|
  {
    var i := t.invitations[id];
    t.(members := t.members + [Member(user, i.role, true, Some(id), i.invitedBy)],
       invitations := t.invitations[id := i.(status := Accepted, acceptedBy := Some(user))])
  }

  lemma JoiningKeepsInv(t: Team, id: nat, user: UserId)
    requires Inv(t) && user in t.users && id < |t.invitations| && t.invitations[id].status == Pending
    requires Normalize(t.users[user]) == t.invitations[id].email
    requires forall m :: 0 <= m < |t.members| ==> t.members[m].user != user
    ensures Inv(Joined(t, id, user))
  {
    hide Links;
    var u := Joined(t, id, user);
    assert InvitationOk(t, t.invitations[id]);
    assert forall j :: 0 <= j < |t.invitations| ==> InvitationOk(t, t.invitations[j]);
    JoiningKeepsLinks(t, id, user);
    assert MembersOk(u);
    assert NoMemberPending(u);
  }

  lemma JoiningKeepsLinks(t: Team, id: nat, user: UserId)
    requires Links(t) && user in t.users && id < |t.invitations| && t.invitations[id].status == Pending
    requires Normalize(t.users[user]) == t.invitations[id].email
    ensures Links(Joined(t, id, user))
  {
    var u := Joined(t, id, user);
    forall m | 0 <= m < |u.members|
      ensures Provenance(u, u.members[m]) && (m < |t.members| ==> u.members[m].invitation != Some(id))
    {
      assert m < |t.members| ==> u.members[m] == t.members[m] && Provenance(t, t.members[m]);
    }
    forall i | 0 <= i < |u.invitations| && u.invitations[i].status == Accepted ensures HasMember(u, i) {
      if i == id {
        assert u.members[|t.members|].invitation == Some(i);
      } else {
        assert HasMember(t, i);
        var m :| 0 <= m < |t.members| && t.members[m].invitation == Some(i);
        assert u.members[m].invitation == Some(i);
      }
    }
  }

  /** Changing role or active flag of a member other than the Owner. */
  lemma EditingKeepsInv(t: Team, id: nat, m: Member)
    requires Inv(t) && 0 < id < |t.members|
    requires m.user == t.members[id].user && m.invitation == t.members[id].invitation
    requires !IsOwnerRole(m.role) && (IsAdministratorRole(m.role) ==> m.grantedBy == t.creator)
    ensures Inv(t.(members := t.members[id := m]))
  {
    hide Links;
    EditingKeepsLinks(t, id, m);
    assert forall j :: 0 <= j < |t.invitations| ==> InvitationOk(t, t.invitations[j]);
  }

  lemma EditingKeepsLinks(t: Team, id: nat, m: Member)
    requires Links(t) && id < |t.members|
    requires m.user == t.members[id].user && m.invitation == t.members[id].invitation
    ensures Links(t.(members := t.members[id := m]))
  {
    var u := t.(members := t.members[id := m]);
    forall n | 0 <= n < |u.members| ensures Provenance(u, u.members[n]) {
      assert Provenance(t, t.members[n]);
    }
    forall i | 0 <= i < |u.invitations| && u.invitations[i].status == Accepted ensures HasMember(u, i) {
      assert HasMember(t, i);
      var n :| 0 <= n < |t.members| && t.members[n].invitation == Some(i);
      assert u.members[n].invitation == Some(i);
    }
  }

  lemma MembershipStepsKeepInv(t: Team, id: nat, actor: UserId, role: Option<Role>, active: Option<bool>)
    requires Inv(t)
    ensures Inv(UpdateMembership(t, id, actor, role, active).0)
    ensures Inv(RemoveMembership(t, id, actor).0)
  {
    if ManagingActor(t, id, actor).Ok? {
      EffectiveOwner(t, actor);
      EditingKeepsInv(t, id, t.members[id].(active := false));
      var (u, r) := UpdateMembership(t, id, actor, role, active);
      if r.Ok? { EditingKeepsInv(t, id, u.members[id]); }
    }
  }

  /** Time, plan and organization status touch neither members nor invitations. */
  lemma SurroundingsKeepInv(t: Team, u: Team)
    requires Inv(t) && u == t.(now := u.now, limit := u.limit, isActive := u.isActive)
    ensures Inv(u)
  {
    assert forall j :: 0 <= j < |t.invitations| ==> InvitationOk(t, t.invitations[j]);
    LinksSurvive(t, u);
  }

  lemma StepKeepsUsers(t: Team, e: Event)
    requires Possible(t.users, e)
    ensures Step(t, e).0.users == t.users && Step(t, e).0.creator == t.creator
  {
  }

  lemma StepKeepsInv(t: Team, e: Event)
    requires Inv(t) && Possible(t.users, e)
    ensures Inv(Step(t, e).0) && Step(t, e).0.users == t.users && Step(t, e).0.creator == t.creator
  {
    StepKeepsUsers(t, e);
    match e
    case Create(inviter, granted, email, role) => CreateKeepsInv(t, inviter, granted, email, role);
    case Resend(id, actor, granted) => ResendKeepsInv(t, id, actor, granted);
    case Revoke(id, actor, granted) =>
      if ManageableInvitation(t, id, actor, granted).Ok? { RevokingKeepsInv(t, id); }
    case Accept(token, user, verified) => AcceptKeepsInv(t, token, user, verified);
    case Update(member, manager, role, active) => MembershipStepsKeepInv(t, member, manager, role, active);
    case Remove(member, manager) => MembershipStepsKeepInv(t, member, manager, None, None);
    case Tick(_) => SurroundingsKeepInv(t, Step(t, e).0);
    case ChangePlan(_) => SurroundingsKeepInv(t, Step(t, e).0);
    case Deactivate => SurroundingsKeepInv(t, Step(t, e).0);
  }
}
