/** Properties of whole runs of team events: one Owner, seats within the plan, and the life of an
    invitation. */
module TeamRuns {
  import opened Results
  import opened Team
  import opened TeamInvariants

  lemma {:induction false} RunKeepsInv(t: Team, events: seq<Event>)
    requires Inv(t) && AllPossible(t.users, events)
    ensures Inv(Run(t, events)) && Run(t, events).users == t.users && Run(t, events).creator == t.creator
    decreases |events|
  {
    if events != [] {
      StepKeepsInv(t, events[0]);
      RunKeepsInv(Step(t, events[0]).0, events[1..]);
    }
  }

  // ---------------------------------------------------------------- one Owner

  /** From the creation of the organization on, whatever is called: exactly one membership has the
      Owner role, it is the creator's and active; every Administrator, invited or promoted, was made
      by the Owner, and so is every Administrator invitation. */
  lemma ExactlyOneOwner(organization: nat, creator: UserId, ownerRole: nat, users: map<UserId, string>,
                        limit: SeatLimit, now: int, events: seq<Event>)
    requires creator in users && UsersOk(users) && AllPossible(users, events)
    ensures var t := Run(Founded(organization, creator, ownerRole, users, limit, now), events);
            && Inv(t)
            && (forall m :: 0 <= m < |t.members| ==>
                  (IsOwnerRole(t.members[m].role) <==> t.members[m].user == creator))
            && (exists m :: 0 <= m < |t.members| && IsOwnerRole(t.members[m].role) && t.members[m].active)
            && (forall m, n :: 0 <= m < n < |t.members| ==>
                  !(IsOwnerRole(t.members[m].role) && IsOwnerRole(t.members[n].role)))
            && (forall m :: 0 <= m < |t.members| && IsAdministratorRole(t.members[m].role) ==>
                  t.members[m].grantedBy == creator)
            && (forall i :: 0 <= i < |t.invitations| && IsAdministratorRole(t.invitations[i].role) ==>
                  t.invitations[i].invitedBy == creator)
  {
    var start := Founded(organization, creator, ownerRole, users, limit, now);
    assert Inv(start);
    RunKeepsInv(start, events);
    var t := Run(start, events);
    assert IsOwnerRole(t.members[0].role);
    assert forall i :: 0 <= i < |t.invitations| ==> InvitationOk(t, t.invitations[i]);
  }

  // ---------------------------------------------------------------- seats

  function B2N(b: bool): nat
  {
    if b then 1 else 0
  }

  lemma {:induction false} ActiveCountUpdate(members: seq<Member>, i: nat, m: Member)
    requires i < |members|
    ensures ActiveCount(members[i := m]) + B2N(members[i].active) == ActiveCount(members) + B2N(m.active)
  {
    var n := |members| - 1;
    if i == n {
      assert members[i := m][..n] == members[..n];
    } else {
      assert members[i := m][..n] == members[..n][i := m];
      ActiveCountUpdate(members[..n], i, m);
    }
  }

  lemma {:induction false} LiveCountUpdate(invitations: seq<Invitation>, i: nat, x: Invitation, now: int)
    requires i < |invitations|
    ensures LiveCount(invitations[i := x], now) + B2N(IsLive(invitations[i], now))
         == LiveCount(invitations, now) + B2N(IsLive(x, now))
  {
    var n := |invitations| - 1;
    if i == n {
      assert invitations[i := x][..n] == invitations[..n];
    } else {
      assert invitations[i := x][..n] == invitations[..n][i := x];
      LiveCountUpdate(invitations[..n], i, x, now);
    }
  }

  lemma ActiveCountAppend(members: seq<Member>, m: Member)
    ensures ActiveCount(members + [m]) == ActiveCount(members) + B2N(m.active)
  {
    assert (members + [m])[..|members|] == members;
  }

  lemma LiveCountAppend(invitations: seq<Invitation>, x: Invitation, now: int)
    ensures LiveCount(invitations + [x], now) == LiveCount(invitations, now) + B2N(IsLive(x, now))
  {
    assert (invitations + [x])[..|invitations|] == invitations;
  }

  lemma {:induction false} LiveCountFalls(invitations: seq<Invitation>, now: int, later: int)
    requires now <= later
    ensures LiveCount(invitations, later) <= LiveCount(invitations, now)
  {
    if invitations != [] { LiveCountFalls(invitations[..|invitations| - 1], now, later); }
  }

  /** A free seat, as `_assert_seat_available` sees it. */
  predicate SeatFree(t: Team)
  {
    SeatError(t).None?
  }

  predicate WithinLimit(t: Team)
  {
    t.limit.Limited? ==> Seats(t) <= t.limit.seats
  }

  /** The one call that can take a seat without asking for one: an actor who may manage an inactive
      member activates it, with no other role or one the actor may grant. */
  predicate Reactivates(t: Team, e: Event)
  {
    && e.Update? && e.newActive == Some(true)
    && ManagingActor(t, e.member, e.manager).Ok?
    && !t.members[e.member].active
    && (e.newRole.Some? && e.newRole.value.id != t.members[e.member].role.id ==>
          RoleGrantable(t.members[ManagingActor(t, e.member, e.manager).value].role, e.newRole.value, t.organization))
  }

  lemma RetiringKeepsSeats(t: Team, email: string)
    requires RetireExpired(t, email).Ok?
    ensures Seats(RetireExpired(t, email).value) == Seats(t)
  {
    var p := PendingByEmail(t, email);
    if p.Some? {
      LiveCountUpdate(t.invitations, p.value, t.invitations[p.value].(status := Revoked), t.now);
    }
  }

  /** How a call may move the sum: not up, or by one when a seat was free. */
  predicate SeatsChecked(t: Team, u: Team)
  {
    u.limit == t.limit && (Seats(u) <= Seats(t) || (Seats(u) == Seats(t) + 1 && SeatFree(t)))
  }

  lemma CreateSeats(t: Team, inviter: UserId, granted: bool, email: string, role: Role)
    requires Inv(t)
    ensures SeatsChecked(t, CreateInvitation(t, inviter, granted, email, role).0)
  {
    if CreateInvitation(t, inviter, granted, email, role).1.Ok? {
      CreateEffect(t, inviter, granted, email, role);
      InvitingSeats(t, inviter, Normalize(email), role);
    }
  }

  lemma InvitingSeats(t: Team, inviter: UserId, email: string, role: Role)
    requires RetireExpired(t, email).Ok? && SeatError(RetireExpired(t, email).value).None?
    ensures var v := RetireExpired(t, email).value;
            SeatsChecked(t, v.(invitations := v.invitations + [NewInvitation(v, inviter, email, role)],
                               nextToken := v.nextToken + 1))
  {
    RetiringKeepsSeats(t, email);
    var v := RetireExpired(t, email).value;
    LiveCountAppend(v.invitations, NewInvitation(v, inviter, email, role), t.now);
  }

  lemma ResendSeats(t: Team, id: nat, actor: UserId, granted: bool)
    ensures SeatsChecked(t, ResendInvitation(t, id, actor, granted).0)
  {
    var (u, r) := ResendInvitation(t, id, actor, granted);
    if r.Ok? { LiveCountUpdate(t.invitations, id, u.invitations[id], t.now); }
  }

  lemma RevokeSeats(t: Team, id: nat, actor: UserId, granted: bool)
    ensures SeatsChecked(t, RevokeInvitation(t, id, actor, granted).0)
  {
    var (u, r) := RevokeInvitation(t, id, actor, granted);
    if r.Ok? { LiveCountUpdate(t.invitations, id, u.invitations[id], t.now); }
  }

  /** Accepting turns the invitation's seat into the member's: the sum does not change. */
  lemma AcceptSeats(t: Team, token: nat, user: UserId, verified: bool)
    requires user in t.users
    ensures Seats(AcceptInvitation(t, token, user, verified).0) == Seats(t)
    ensures AcceptInvitation(t, token, user, verified).0.limit == t.limit
  {
    var (u, r) := AcceptInvitation(t, token, user, verified);
    if u != t {
      var id := First(t.invitations, (i: Invitation) => i.token == token).value;
      LiveCountUpdate(t.invitations, id, u.invitations[id], t.now);
      ActiveCountAppend(t.members, u.members[|t.members|]);
    }
  }

  lemma UpdateSeats(t: Team, id: nat, actor: UserId, role: Option<Role>, active: Option<bool>)
    ensures var (u, r) := UpdateMembership(t, id, actor, role, active);
            && u.limit == t.limit
            && if Reactivates(t, Update(id, actor, role, active)) then Seats(u) == Seats(t) + 1 else Seats(u) <= Seats(t)
  {
    var (u, r) := UpdateMembership(t, id, actor, role, active);
    if r.Ok? { ActiveCountUpdate(t.members, id, u.members[id]); }
  }

  lemma RemoveSeats(t: Team, id: nat, actor: UserId)
    ensures SeatsChecked(t, RemoveMembership(t, id, actor).0)
  {
    if ManagingActor(t, id, actor).Ok? {
      ActiveCountUpdate(t.members, id, t.members[id].(active := false));
    }
  }

  lemma SeatEffect(t: Team, e: Event)
    requires Inv(t) && Possible(t.users, e) && !e.Update? && !e.ChangePlan?
    ensures SeatsChecked(t, Step(t, e).0)
  {
    match e
    case Create(inviter, granted, email, role) => CreateSeats(t, inviter, granted, email, role);
    case Resend(id, actor, granted) => ResendSeats(t, id, actor, granted);
    case Revoke(id, actor, granted) => RevokeSeats(t, id, actor, granted);
    case Accept(token, user, verified) => AcceptSeats(t, token, user, verified);
    case Remove(member, manager) => RemoveSeats(t, member, manager);
    case Tick(seconds) => LiveCountFalls(t.invitations, t.now, t.now + seconds);
    case Deactivate =>
  }

  /** Whether a call that raised the sum stayed within the limit. */
  predicate SeatSafe(t: Team, u: Team)
  {
    Seats(u) > Seats(t) ==> WithinLimit(u)
  }

  /** No call raises the sum over the limit, except a reactivation: exactly a reactivation without a
      free seat does. */
  lemma SeatStep(t: Team, e: Event)
    requires Inv(t) && Possible(t.users, e)
    ensures SeatSafe(t, Step(t, e).0) <==> !(Reactivates(t, e) && t.limit.Limited? && Seats(t) >= t.limit.seats)
    ensures !e.ChangePlan? ==> Step(t, e).0.limit == t.limit
  {
    if e.Update? {
      UpdateSeats(t, e.member, e.manager, e.newRole, e.newActive);
    } else if !e.ChangePlan? {
      SeatEffect(t, e);
    }
  }

  /** No reactivation, and no plan change, along the run. */
  predicate Steady(t: Team, events: seq<Event>)
    requires AllPossible(t.users, events)
    decreases |events|
  {
    if events == [] then true
    else
      StepKeepsUsers(t, events[0]);
      !Reactivates(t, events[0]) && !events[0].ChangePlan? && Steady(Step(t, events[0]).0, events[1..])
  }

  /** Under a fixed limit the sum never exceeds it. */
  lemma {:induction false} SeatsStayWithinLimit(t: Team, events: seq<Event>)
    requires Inv(t) && AllPossible(t.users, events) && Steady(t, events) && WithinLimit(t)
    ensures WithinLimit(Run(t, events)) && Run(t, events).limit == t.limit
    decreases |events|
  {
    if events != [] {
      SeatStep(t, events[0]);
      StepKeepsInv(t, events[0]);
      SeatsStayWithinLimit(Step(t, events[0]).0, events[1..]);
    }
  }

  // ---------------------------------------------------------------- a run that overfills the plan

  const OWNER: Role := Role(0, 0, true, OWNER_ROLE_SLUG)
  const STAFF: Role := Role(1, 0, false, "staff")

  /** Two users and a third address, all different. */
  predicate Strangers(users: map<UserId, string>, third: string)
  {
    && UsersOk(users) && 0 in users && 1 in users
    && Normalize(users[0]) != Normalize(users[1])
    && Normalize(third) != Normalize(users[0]) && Normalize(third) != Normalize(users[1])
  }

  /** A plan of two seats. User 1 is invited, joins and is removed; then the third address is invited. */
  function TwoSeats(users: map<UserId, string>): Team
  {
    Founded(0, 0, 0, users, Limited(2), 0)
  }

  function FillingCalls(users: map<UserId, string>, third: string): seq<Event>
    requires 1 in users
  {
    [Create(0, true, users[1], STAFF), Accept(0, 1, true), Remove(1, 0), Create(0, true, third, STAFF)]
  }

  function Invited(users: map<UserId, string>): Team
    requires 1 in users
  {
    var i := Invitation(Normalize(users[1]), STAFF, Pending, 0, INVITATION_TTL, 0, 0, None);
    TwoSeats(users).(invitations := [i], nextToken := 1)
  }

  function JoinedTeam(users: map<UserId, string>, active: bool): Team
    requires 1 in users
  {
    var i := Invitation(Normalize(users[1]), STAFF, Accepted, 0, INVITATION_TTL, 0, 0, Some(1));
    TwoSeats(users).(members := [Member(0, OWNER, true, None, 0), Member(1, STAFF, active, Some(0), 0)],
                     invitations := [i], nextToken := 1)
  }

  function FullTeam(users: map<UserId, string>, third: string): Team
    requires 1 in users
  {
    var i := Invitation(Normalize(third), STAFF, Pending, 1, INVITATION_TTL, 0, 0, None);
    var t := JoinedTeam(users, false);
    t.(invitations := t.invitations + [i], nextToken := 2)
  }

  lemma SeatsOfOneMember(t: Team, m: Member)
    requires t.members == [m]
    ensures Seats(t) == B2N(m.active) + LiveCount(t.invitations, t.now)
  {
    assert [m] == [] + [m];
    ActiveCountAppend([], m);
  }

  lemma SeatsOfTwoMembers(t: Team, m: Member, n: Member)
    requires t.members == [m, n]
    ensures Seats(t) == B2N(m.active) + B2N(n.active) + LiveCount(t.invitations, t.now)
  {
    assert [m] == [] + [m] && [m, n] == [m] + [n];
    ActiveCountAppend([], m);
    ActiveCountAppend([m], n);
  }

  lemma LiveOfOne(i: Invitation, now: int)
    ensures LiveCount([i], now) == B2N(IsLive(i, now)) && LiveCount([], now) == 0
  {
    assert [i] == [] + [i];
    LiveCountAppend([], i, now);
  }

  lemma NormalizedOnce(s: string)
    ensures Lower(Normalize(s)) == Normalize(s)
  {
    LowerTwice(Strip(s));
  }

  lemma UserOneIsInvited(users: map<UserId, string>, third: string)
    requires Strangers(users, third)
    ensures Step(TwoSeats(users), Create(0, true, users[1], STAFF)).0 == Invited(users)
  {
    var t := TwoSeats(users);
    NormalizedOnce(users[1]);
    LiveOfOne(Invited(users).invitations[0], 0);
    SeatsOfOneMember(t, t.members[0]);
    assert Authorize(t, 0, true) == Ok(0);
    assert MemberByEmail(t, Normalize(users[1])) == None;
    assert RetireExpired(t, Normalize(users[1])) == Ok(t);
  }

  lemma UserOneJoins(users: map<UserId, string>, third: string)
    requires Strangers(users, third)
    ensures Possible(users, Accept(0, 1, true))
    ensures Step(Invited(users), Accept(0, 1, true)).0 == JoinedTeam(users, true)
  {
    var t := Invited(users);
    LiveOfOne(t.invitations[0], 0);
    SeatsOfOneMember(t, t.members[0]);
    assert First(t.invitations, (i: Invitation) => i.token == 0) == Some(0);
    assert First(t.members, (m: Member) => m.user == 1) == None;
  }

  lemma OwnerManages(t: Team)
    requires |t.members| == 2 && t.members[0] == Member(0, OWNER, true, None, 0)
    requires t.members[1].user == 1 && t.members[1].role == STAFF
    ensures ManagingActor(t, 1, 0) == Ok(0)
  {
    assert Manager(t, 0) == Some(0);
  }

  lemma UserOneIsRemoved(users: map<UserId, string>, third: string)
    requires Strangers(users, third)
    ensures Step(JoinedTeam(users, true), Remove(1, 0)).0 == JoinedTeam(users, false)
  {
    OwnerManages(JoinedTeam(users, true));
  }

  lemma ThirdIsInvited(users: map<UserId, string>, third: string)
    requires Strangers(users, third)
    ensures Step(JoinedTeam(users, false), Create(0, true, third, STAFF)).0 == FullTeam(users, third)
  {
    var t := JoinedTeam(users, false);
    NormalizedOnce(third);
    LiveOfOne(t.invitations[0], 0);
    SeatsOfTwoMembers(t, t.members[0], t.members[1]);
    assert Authorize(t, 0, true) == Ok(0);
    assert MemberByEmail(t, Normalize(third)) == None;
    assert PendingByEmail(t, Normalize(third)) == None;
  }

  lemma FillingCallsFill(users: map<UserId, string>, third: string)
    requires Strangers(users, third)
    ensures AllPossible(users, FillingCalls(users, third))
    ensures Run(TwoSeats(users), FillingCalls(users, third)) == FullTeam(users, third)
  {
    var calls := FillingCalls(users, third);
    UserOneIsInvited(users, third);
    UserOneJoins(users, third);
    UserOneIsRemoved(users, third);
    ThirdIsInvited(users, third);
    hide Step, TwoSeats, Invited, JoinedTeam, FullTeam;
    UsersStay(users, third);
    assert calls[1..] == [Accept(0, 1, true), Remove(1, 0), Create(0, true, third, STAFF)];
    assert calls[1..][1..] == [Remove(1, 0), Create(0, true, third, STAFF)];
    assert calls[1..][1..][1..] == [Create(0, true, third, STAFF)];
    assert calls[1..][1..][1..][1..] == [];
    assert Run(FullTeam(users, third), []) == FullTeam(users, third);
    assert Run(JoinedTeam(users, false), calls[1..][1..][1..]) == FullTeam(users, third);
    assert Run(JoinedTeam(users, true), calls[1..][1..]) == FullTeam(users, third);
    assert Run(Invited(users), calls[1..]) == FullTeam(users, third);
  }

  lemma UsersStay(users: map<UserId, string>, third: string)
    requires 1 in users
    ensures TwoSeats(users).users == Invited(users).users == JoinedTeam(users, true).users == users
    ensures JoinedTeam(users, false).users == FullTeam(users, third).users == users
  {
  }

  /** From creation on, four calls fill a plan of two seats; reactivating the removed member then raises
      the seats in use to three. */
  lemma ReactivationOverfills(users: map<UserId, string>, third: string)
    requires Strangers(users, third)
    ensures AllPossible(users, FillingCalls(users, third))
    ensures var t, e := Run(TwoSeats(users), FillingCalls(users, third)), Update(1, 0, None, Some(true));
            && Inv(t) && WithinLimit(t) && Reactivates(t, e)
            && !SeatSafe(t, Step(t, e).0) && Seats(Step(t, e).0) == 3
  {
    FillingCallsFill(users, third);
    var t, e := FullTeam(users, third), Update(1, 0, None, Some(true));
    FoundedInv(users);
    RunKeepsInv(TwoSeats(users), FillingCalls(users, third));
    OwnerManages(t);
    LiveOfOne(t.invitations[0], 0);
    LiveCountAppend([t.invitations[0]], t.invitations[1], 0);
    SeatsOfTwoMembers(t, t.members[0], t.members[1]);
    var u := Step(t, e).0;
    SeatsOfTwoMembers(u, u.members[0], u.members[1]);
  }

  lemma FoundedInv(users: map<UserId, string>)
    requires UsersOk(users) && 0 in users
    ensures Inv(TwoSeats(users))
  {
  }

  // ---------------------------------------------------------------- the life of an invitation

  /** What no call takes back. A pending invitation may be resent under a fresh token, accepted or
      revoked; a closed one never changes. */
  predicate InvitationEvolves(t: Team, i: Invitation, j: Invitation)
  {
    && j.email == i.email && j.role == i.role && j.invitedBy == i.invitedBy
    && (i.status != Pending ==> j == i)
    && (j.token == i.token || j.token >= t.nextToken)
  }

  predicate Evolves(t: Team, u: Team)
  {
    && t.nextToken <= u.nextToken
    && |t.invitations| <= |u.invitations| && |t.members| <= |u.members|
    && (forall i :: 0 <= i < |t.invitations| ==> InvitationEvolves(t, t.invitations[i], u.invitations[i]))
    && (forall i :: |t.invitations| <= i < |u.invitations| ==> u.invitations[i].token >= t.nextToken)
    && (forall m :: 0 <= m < |t.members| ==>
          u.members[m].user == t.members[m].user && u.members[m].invitation == t.members[m].invitation)
  }

  lemma CreateEvolves(t: Team, inviter: UserId, granted: bool, email: string, role: Role)
    requires Inv(t)
    ensures Evolves(t, CreateInvitation(t, inviter, granted, email, role).0)
  {
    if CreateInvitation(t, inviter, granted, email, role).1.Ok? {
      CreateEffect(t, inviter, granted, email, role);
      var pending := PendingByEmail(t, Normalize(email));
      assert pending.None? ==> RetireExpired(t, Normalize(email)).value == t;
    }
  }

  lemma ManagingInvitationsEvolves(t: Team, id: nat, actor: UserId, granted: bool)
    requires Inv(t)
    ensures Evolves(t, ResendInvitation(t, id, actor, granted).0)
    ensures Evolves(t, RevokeInvitation(t, id, actor, granted).0)
  {
  }

  lemma AcceptEvolves(t: Team, token: nat, user: UserId, verified: bool)
    requires Inv(t) && user in t.users
    ensures Evolves(t, AcceptInvitation(t, token, user, verified).0)
  {
  }

  lemma MembershipStepsEvolve(t: Team, id: nat, actor: UserId, role: Option<Role>, active: Option<bool>)
    ensures Evolves(t, UpdateMembership(t, id, actor, role, active).0)
    ensures Evolves(t, RemoveMembership(t, id, actor).0)
  {
  }

  lemma StepEvolves(t: Team, e: Event)
    requires Inv(t) && Possible(t.users, e)
    ensures Evolves(t, Step(t, e).0)
  {
    match e
    case Create(inviter, granted, email, role) => CreateEvolves(t, inviter, granted, email, role);
    case Resend(id, actor, granted) => ManagingInvitationsEvolves(t, id, actor, granted);
    case Revoke(id, actor, granted) => ManagingInvitationsEvolves(t, id, actor, granted);
    case Accept(token, user, verified) => AcceptEvolves(t, token, user, verified);
    case Update(member, manager, role, active) => MembershipStepsEvolve(t, member, manager, role, active);
    case Remove(member, manager) => MembershipStepsEvolve(t, member, manager, None, None);
    case Tick(_) =>
    case ChangePlan(_) =>
    case Deactivate =>
  }

  lemma EvolvesTransitive(t: Team, u: Team, v: Team)
    requires Evolves(t, u) && Evolves(u, v)
    ensures Evolves(t, v)
  {
    forall i | 0 <= i < |t.invitations| ensures InvitationEvolves(t, t.invitations[i], v.invitations[i]) {
      assert InvitationEvolves(t, t.invitations[i], u.invitations[i]);
      assert InvitationEvolves(u, u.invitations[i], v.invitations[i]);
    }
    forall i | |t.invitations| <= i < |v.invitations| ensures v.invitations[i].token >= t.nextToken {
      if i < |u.invitations| { assert InvitationEvolves(u, u.invitations[i], v.invitations[i]); }
    }
  }

  /** Status moves only from pending to accepted or revoked, over whole runs. */
  lemma {:induction false} RunEvolves(t: Team, events: seq<Event>)
    requires Inv(t) && AllPossible(t.users, events)
    ensures Evolves(t, Run(t, events))
    decreases |events|
  {
    if events != [] {
      var u := Step(t, events[0]).0;
      StepKeepsInv(t, events[0]);
      StepEvolves(t, events[0]);
      RunEvolves(u, events[1..]);
      EvolvesTransitive(t, u, Run(u, events[1..]));
    }
  }

  /** A token that was issued and is held by no invitation is dead for ever. */
  lemma RetiredTokenStaysDead(t: Team, events: seq<Event>, token: nat, user: UserId, verified: bool)
    requires Inv(t) && AllPossible(t.users, events) && user in t.users
    requires token < t.nextToken && forall i :: 0 <= i < |t.invitations| ==> t.invitations[i].token != token
    ensures Run(t, events).users == t.users
    ensures AcceptInvitation(Run(t, events), token, user, verified) == (Run(t, events), Err(InvitationInvalid))
  {
    RunEvolves(t, events);
    RunKeepsInv(t, events);
    var u := Run(t, events);
    forall i | 0 <= i < |u.invitations| ensures u.invitations[i].token != token {
      if i < |t.invitations| { assert InvitationEvolves(t, t.invitations[i], u.invitations[i]); }
    }
  }

  /** Once an invitation is resent, its old link is never accepted again. */
  lemma ResentTokenIsNeverAccepted(t: Team, id: nat, actor: UserId, granted: bool,
                                   events: seq<Event>, user: UserId, verified: bool)
    requires Inv(t) && AllPossible(t.users, events) && user in t.users
    requires ResendInvitation(t, id, actor, granted).1.Ok?
    ensures var u := Run(ResendInvitation(t, id, actor, granted).0, events);
            && u.users == t.users
            && AcceptInvitation(u, t.invitations[id].token, user, verified) == (u, Err(InvitationInvalid))
  {
    var u := ResendInvitation(t, id, actor, granted).0;
    ResendKeepsInv(t, id, actor, granted);
    assert InvitationOk(t, t.invitations[id]);
    RetiredTokenStaysDead(u, events, t.invitations[id].token, user, verified);
  }

  lemma FirstByToken(t: Team, id: nat)
    requires Inv(t) && id < |t.invitations|
    ensures First(t.invitations, (i: Invitation) => i.token == t.invitations[id].token) == Some(id)
  {
  }

  lemma FirstByInvitation(t: Team, m: nat)
    requires Inv(t) && m < |t.members| && t.members[m].invitation.Some?
    ensures First(t.members, (x: Member) => x.invitation == t.members[m].invitation) == Some(m)
  {
  }

  /** After a successful accept, whatever happens: replaying it as the same user returns the same
      membership and changes nothing, and nobody else can use the token. */
  lemma AcceptIsOnce(t: Team, token: nat, user: UserId, verified: bool, events: seq<Event>,
                     other: UserId, verified': bool)
    requires Inv(t) && AllPossible(t.users, events) && user in t.users && other in t.users
    requires AcceptInvitation(t, token, user, verified).1.Ok?
    ensures var (u, r) := AcceptInvitation(t, token, user, verified);
            var w := Run(u, events);
            && r.value < |w.members| && w.members[r.value].user == user
            && w.users == t.users
            && AcceptInvitation(w, token, other, verified')
               == (w, if other == user && w.isActive then Ok(r.value) else Err(InvitationInvalid))
  {
    var (u, r) := AcceptInvitation(t, token, user, verified);
    AcceptKeepsInv(t, token, user, verified);
    RunKeepsInv(u, events);
    RunEvolves(u, events);
    var w := Run(u, events);
    var id := First(t.invitations, (i: Invitation) => i.token == token).value;
    assert u.invitations[id].status == Accepted && u.invitations[id].token == token;
    assert u.members[r.value].invitation == Some(id);
    assert InvitationEvolves(u, u.invitations[id], w.invitations[id]);
    FirstByToken(w, id);
    FirstByInvitation(w, r.value);
    assert Provenance(u, u.members[r.value]);
  }

  /** A revoked invitation is never accepted. */
  lemma RevokedIsNeverAccepted(t: Team, id: nat, actor: UserId, granted: bool, events: seq<Event>,
                               user: UserId, verified: bool)
    requires Inv(t) && AllPossible(t.users, events) && user in t.users
    requires RevokeInvitation(t, id, actor, granted).1.Ok?
    ensures var u := Run(RevokeInvitation(t, id, actor, granted).0, events);
            && u.users == t.users
            && AcceptInvitation(u, t.invitations[id].token, user, verified) == (u, Err(InvitationInvalid))
  {
    var u := RevokeInvitation(t, id, actor, granted).0;
    RevokingKeepsInv(t, id);
    RunKeepsInv(u, events);
    RunEvolves(u, events);
    var w := Run(u, events);
    assert InvitationEvolves(u, u.invitations[id], w.invitations[id]);
    FirstByToken(w, id);
  }
}
