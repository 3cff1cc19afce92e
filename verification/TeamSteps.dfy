/** What each call on members and invitations comes to, told from the rows before it: exactly when it
    succeeds, what it then changes, and which error it gives otherwise. */
module TeamSteps {
  import opened Results
  import opened Team
  import opened TeamInvariants
  import opened TeamRuns

  // ---------------------------------------------------------------- who and what

  predicate Owner(role: Role)
  {
    role.isSystem && role.slug == "owner"
  }

  predicate Administrator(role: Role)
  {
    role.isSystem && role.slug == "administrator"
  }

  /** The user acts through this active membership. */
  predicate ActsAs(t: Team, m: nat, user: UserId)
  {
    m < |t.members| && t.members[m].active && t.members[m].user == user
  }

  /** What all reachable states have: a user is a member once, and no two invitations share a token. */
  predicate DistinctRows(t: Team)
  {
    && (forall m, n :: 0 <= m < n < |t.members| ==> t.members[m].user != t.members[n].user)
    && (forall i, j :: 0 <= i < j < |t.invitations| ==> t.invitations[i].token != t.invitations[j].token)
  }

  lemma ReachedRowsAreDistinct(t: Team)
    requires Inv(t)
    ensures DistinctRows(t)
  {
  }

  // ---------------------------------------------------------------- addresses

  lemma {:induction false} StripTrims(s: string) returns (a: nat, b: nat)
    ensures a <= b <= |s| && Strip(s) == s[a..b]
    ensures forall i :: 0 <= i < a || b <= i < |s| ==> s[i] in " \t\n\r"
    ensures a < b ==> s[a] !in " \t\n\r" && s[b - 1] !in " \t\n\r"
  {
    if s == "" {
      a, b := 0, 0;
    } else if IsSpace(s[0]) {
      a, b := StripTrims(s[1..]);
      assert forall i :: 1 <= i < |s| ==> s[i] == s[1..][i - 1];
      assert s[1..][a..b] == s[a + 1..b + 1];
      a, b := a + 1, b + 1;
    } else if IsSpace(s[|s| - 1]) {
      a, b := StripTrims(s[..|s| - 1]);
      assert s[..|s| - 1][a..b] == s[a..b];
    } else {
      a, b := 0, |s|;
    }
  }

  /** Normalizing an address takes off the white space at both ends, all of it, and turns capitals into
      small letters, nothing else. */
  lemma NormalizeMeans(s: string) returns (a: nat, b: nat)
    ensures a <= b <= |s| && |Normalize(s)| == b - a
    ensures forall i :: 0 <= i < a || b <= i < |s| ==> s[i] in " \t\n\r"
    ensures a < b ==> s[a] !in " \t\n\r" && s[b - 1] !in " \t\n\r"
    ensures forall i :: 0 <= i < b - a ==>
              var x, y := s[a + i], Normalize(s)[i];
              if 'A' <= x <= 'Z' then 'a' <= y <= 'z' && y - 'a' == x - 'A' else y == x
  {
    a, b := StripTrims(s);
  }

  // ---------------------------------------------------------------- seats

  /** A seat is taken by every active member and every pending invitation that has not expired. */
  lemma {:induction false} SeatsAreCounted(t: Team)
    ensures Seats(t) == |(set m | 0 <= m < |t.members| && t.members[m].active)|
                        + |(set i | 0 <= i < |t.invitations| && t.invitations[i].status == Pending && t.invitations[i].expiresAt > t.now)|
  {
    ActiveAreCounted(t.members);
    LiveAreCounted(t.invitations, t.now);
  }

  lemma {:induction false} ActiveAreCounted(members: seq<Member>)
    ensures ActiveCount(members) == |(set m | 0 <= m < |members| && members[m].active)|
  {
    if members != [] {
      var front, n := members[..|members| - 1], |members| - 1;
      ActiveAreCounted(front);
      var rest := set m | 0 <= m < |front| && front[m].active;
      assert (set m | 0 <= m < |members| && members[m].active) == rest + if members[n].active then {n} else {};
    }
  }

  lemma {:induction false} LiveAreCounted(invitations: seq<Invitation>, now: int)
    ensures LiveCount(invitations, now)
         == |(set i | 0 <= i < |invitations| && invitations[i].status == Pending && invitations[i].expiresAt > now)|
  {
    if invitations != [] {
      var front, n := invitations[..|invitations| - 1], |invitations| - 1;
      LiveAreCounted(front, now);
      var rest := set i | 0 <= i < |front| && front[i].status == Pending && front[i].expiresAt > now;
      assert (set i | 0 <= i < |invitations| && invitations[i].status == Pending && invitations[i].expiresAt > now)
          == rest + if invitations[n].status == Pending && invitations[n].expiresAt > now then {n} else {};
    }
  }

  /** The plan has a free seat: it is unlimited, or more seats than are in use. */
  predicate FreeSeat(t: Team)
  {
    t.limit.Unlimited? || (t.limit.Limited? && Seats(t) < t.limit.seats)
  }

  function NoSeatError(t: Team): Error
  {
    if t.limit.NoSubscription? then SubscriptionRequired else UserLimitReached
  }

  // ---------------------------------------------------------------- accepting

  /** The invitation that this user may accept with this token. */
  predicate MayJoin(t: Team, id: nat, token: nat, user: UserId, verified: bool)
    requires user in t.users
  {
    && t.isActive
    && id < |t.invitations|
    && var i := t.invitations[id];
       && i.token == token && i.status == Pending && t.now < i.expiresAt
       && verified && Normalize(t.users[user]) == i.email
       && (forall m :: 0 <= m < |t.members| ==> t.members[m].user != user)
       && i.role.organization == t.organization
       && (t.limit.Unlimited? || (t.limit.Limited? && Seats(t) <= t.limit.seats))
  }

  lemma FirstWithToken(t: Team, id: nat)
    requires DistinctRows(t) && id < |t.invitations|
    ensures First(t.invitations, (i: Invitation) => i.token == t.invitations[id].token) == Some(id)
  {
  }

  /** A membership is made exactly if the organization is active, the token is that of a live invitation,
      the user is verified and has the invited address, is no member yet, the role is of the organization,
      and the plan still covers the seats in use. */
  lemma AcceptJoinsExactly(t: Team, token: nat, user: UserId, verified: bool)
    requires DistinctRows(t) && user in t.users
    ensures var u := AcceptInvitation(t, token, user, verified).0;
            && (|u.members| > |t.members| <==> exists id :: MayJoin(t, id, token, user, verified))
            && (|u.members| <= |t.members| ==> u == t)
  {
    hide Seats;
    var found := First(t.invitations, (i: Invitation) => i.token == token);
    if found.Some? && |AcceptInvitation(t, token, user, verified).0.members| > |t.members| {
      assert MayJoin(t, found.value, token, user, verified);
    }
    if id :| MayJoin(t, id, token, user, verified) { FirstWithToken(t, id); }
  }

  /** The new member has the invitation's role, by grant of who invited, and the invitation is used up. */
  lemma AcceptMakesMember(t: Team, id: nat, token: nat, user: UserId, verified: bool)
    requires DistinctRows(t) && user in t.users && MayJoin(t, id, token, user, verified)
    ensures var (u, r), i := AcceptInvitation(t, token, user, verified), t.invitations[id];
            && r == Ok(|t.members|)
            && u == t.(members := t.members + [Member(user, i.role, true, Some(id), i.invitedBy)],
                       invitations := t.invitations[id := i.(status := Accepted, acceptedBy := Some(user))])
  {
    hide Seats;
    FirstWithToken(t, id);
  }

  predicate FromInvitation(t: Team, m: nat, id: nat)
  {
    m < |t.members| && t.members[m].invitation == Some(id)
  }

  /** The first reason that applies, where the invitation is neither accepted nor acceptable. */
  ghost predicate RefusedWith(t: Team, i: Invitation, user: UserId, verified: bool, e: Error)
    requires user in t.users
  {
    if i.status == Revoked then e == InvitationInvalid
    else if i.expiresAt <= t.now then e == InvitationExpired
    else if !verified then e == EmailNotVerified
    else if Normalize(t.users[user]) != i.email then e == EmailMismatch
    else if exists m :: 0 <= m < |t.members| && t.members[m].user == user then
      e == if exists m :: ActsAs(t, m, user) then AlreadyMember else MembershipInactive
    else if i.role.organization != t.organization then e == InvalidRole
    else if t.limit.NoSubscription? then e == SubscriptionRequired
    else e == UserLimitReached
  }

  /** Otherwise nothing changes. The user who accepted gets the membership back, and every refusal is the
      one that fits the case. */
  lemma AcceptOtherwise(t: Team, token: nat, user: UserId, verified: bool)
    requires DistinctRows(t) && user in t.users && forall id :: !MayJoin(t, id, token, user, verified)
    ensures var (u, r) := AcceptInvitation(t, token, user, verified);
            && u == t
            && (!t.isActive || (forall id :: 0 <= id < |t.invitations| ==> t.invitations[id].token != token) ==>
                  r == Err(InvitationInvalid))
            && forall id :: t.isActive && 0 <= id < |t.invitations| && t.invitations[id].token == token ==>
                 var i := t.invitations[id];
                 if i.status == Accepted then
                   if i.acceptedBy == Some(user) && exists m :: FromInvitation(t, m, id)
                   then r.Ok? && FromInvitation(t, r.value, id)
                   else r == Err(InvitationInvalid)
                 else r.Err? && RefusedWith(t, i, user, verified, r.error)
  {
    hide Seats;
    var (u, r) := AcceptInvitation(t, token, user, verified);
    AcceptJoinsExactly(t, token, user, verified);
    forall id | t.isActive && 0 <= id < |t.invitations| && t.invitations[id].token == token
      ensures var i := t.invitations[id];
              if i.status == Accepted then
                if i.acceptedBy == Some(user) && exists m :: FromInvitation(t, m, id)
                then r.Ok? && FromInvitation(t, r.value, id)
                else r == Err(InvitationInvalid)
              else r.Err? && RefusedWith(t, i, user, verified, r.error)
    {
      FirstWithToken(t, id);
      var i := t.invitations[id];
      assert !MayJoin(t, id, token, user, verified);
      if i.status == Accepted {
        AcceptedReplays(t, id, user, verified);
      } else {
        PendingRefuses(t, id, user, verified);
      }
    }
  }

  lemma AcceptedReplays(t: Team, id: nat, user: UserId, verified: bool)
    requires DistinctRows(t) && user in t.users && id < |t.invitations| && t.isActive && t.invitations[id].status == Accepted
    ensures var r := AcceptInvitation(t, t.invitations[id].token, user, verified).1;
            if t.invitations[id].acceptedBy == Some(user) && exists m :: FromInvitation(t, m, id)
            then r.Ok? && FromInvitation(t, r.value, id)
            else r == Err(InvitationInvalid)
  {
    hide AcceptError;
    FirstWithToken(t, id);
    var existing := First(t.members, (m: Member) => m.invitation == Some(id));
    if existing.Some? { assert FromInvitation(t, existing.value, id); }
  }

  lemma PendingRefuses(t: Team, id: nat, user: UserId, verified: bool)
    requires DistinctRows(t) && user in t.users && id < |t.invitations| && t.isActive && t.invitations[id].status != Accepted
    requires !MayJoin(t, id, t.invitations[id].token, user, verified)
    ensures var r := AcceptInvitation(t, t.invitations[id].token, user, verified).1;
            r.Err? && RefusedWith(t, t.invitations[id], user, verified, r.error)
  {
    hide Seats;
    FirstWithToken(t, id);
    var existing := First(t.members, (m: Member) => m.user == user);
    if existing.Some? {
      var m := existing.value;
      assert t.members[m].active ==> ActsAs(t, m, user);
      assert forall n :: ActsAs(t, n, user) ==> n == m;
    }
  }

  // ---------------------------------------------------------------- inviting

  /** The user may hand out the role: it is of the organization, not Owner, and Administrator only by the
      Owner. */
  predicate Assignable(t: Team, m: nat, role: Role)
    requires m < |t.members|
  {
    role.organization == t.organization && !Owner(role) && (Administrator(role) ==> Owner(t.members[m].role))
  }

  /** The user acts as an active member, who is Owner or has the permission. */
  predicate Permitted(t: Team, m: nat, user: UserId, granted: bool)
  {
    ActsAs(t, m, user) && (Owner(t.members[m].role) || granted)
  }

  /** The checks that inviting, resending and revoking share: which error they give, if any. */
  ghost predicate Unauthorized(t: Team, user: UserId, granted: bool, role: Role, e: Error)
  {
    if !(exists m :: ActsAs(t, m, user)) then e == NotOrganizationMember
    else if !(exists m :: Permitted(t, m, user, granted)) then e == PermissionDenied
    else !(exists m :: Permitted(t, m, user, granted) && Assignable(t, m, role)) && e == RoleRefusal(t, role)
  }

  function RoleRefusal(t: Team, role: Role): Error
  {
    if role.organization != t.organization then InvalidRole else RoleNotAssignable
  }

  ghost predicate Authorized(t: Team, user: UserId, granted: bool, role: Role)
  {
    exists m :: Permitted(t, m, user, granted) && Assignable(t, m, role)
  }

  lemma ActsAsOne(t: Team, user: UserId)
    requires DistinctRows(t)
    ensures EffectiveMember(t, user).Some? <==> exists m :: ActsAs(t, m, user)
    ensures forall m: nat :: ActsAs(t, m, user) ==> EffectiveMember(t, user) == Some(m)
  {
    var found := EffectiveMember(t, user);
    if found.Some? { assert ActsAs(t, found.value, user); }
  }

  /** What the code's checks find. */
  lemma ChecksAgree(t: Team, user: UserId, granted: bool, role: Role)
    requires DistinctRows(t)
    ensures match Authorize(t, user, granted)
            case Err(e) => !Authorized(t, user, granted, role) && Unauthorized(t, user, granted, role, e)
            case Ok(m) =>
              m < |t.members| && match RoleError(t.members[m].role, role, t.organization)
                                 case None => Authorized(t, user, granted, role)
                                 case Some(e) => !Authorized(t, user, granted, role) && Unauthorized(t, user, granted, role, e)
  {
    ActsAsOne(t, user);
    var found := EffectiveMember(t, user);
    if found.Some? {
      var m := found.value;
      assert forall n :: Permitted(t, n, user, granted) ==> n == m;
      assert ActsAs(t, m, user);
      if Owner(t.members[m].role) || granted { assert Permitted(t, m, user, granted); }
    }
  }

  /** A member, by the address on file. */
  predicate HasAddress(t: Team, m: nat, email: string)
  {
    m < |t.members| && Lower(EmailOf(t, t.members[m])) == email
  }

  /** A pending invitation for the address that has not expired. */
  predicate LiveFor(t: Team, i: nat, email: string)
  {
    i < |t.invitations| && t.invitations[i].status == Pending && t.invitations[i].email == email && t.now < t.invitations[i].expiresAt
  }

  ghost predicate MayInvite(t: Team, inviter: UserId, granted: bool, email: string, role: Role)
  {
    && t.isActive && Authorized(t, inviter, granted, role)
    && (forall m :: !HasAddress(t, m, email)) && (forall i :: !LiveFor(t, i, email))
    && FreeSeat(t)
  }

  ghost predicate NotInvitedFor(t: Team, inviter: UserId, granted: bool, email: string, role: Role, e: Error)
  {
    if !t.isActive then e == OrganizationNotFound
    else if !Authorized(t, inviter, granted, role) then Unauthorized(t, inviter, granted, role, e)
    else if exists m :: HasAddress(t, m, email) then
      exists m: nat :: HasAddress(t, m, email) && e == if t.members[m].active then AlreadyMember else MembershipInactive
    else if exists i :: LiveFor(t, i, email) then e == AlreadyInvited
    else e == NoSeatError(t)
  }

  /** The rows of invitations with an expired one for the address closed. */
  predicate ExpiredClosed(t: Team, after: seq<Invitation>, email: string)
  {
    && |after| == |t.invitations|
    && forall i :: 0 <= i < |after| ==>
         after[i] == if t.invitations[i].status == Pending && t.invitations[i].email == email
                     then t.invitations[i].(status := Revoked) else t.invitations[i]
  }

  lemma RetiringCloses(t: Team, email: string)
    requires Inv(t) && Lower(email) == email
    ensures if exists i :: LiveFor(t, i, email) then RetireExpired(t, email) == Err(AlreadyInvited)
            else
              && RetireExpired(t, email).Ok? && ExpiredClosed(t, RetireExpired(t, email).value.invitations, email)
              && RetireExpired(t, email).value == t.(invitations := RetireExpired(t, email).value.invitations)
              && Seats(RetireExpired(t, email).value) == Seats(t)
  {
    hide Seats;
    var pending := PendingByEmail(t, email);
    forall j | 0 <= j < |t.invitations| && t.invitations[j].status == Pending && t.invitations[j].email == email
      ensures pending == Some(j)
    {
      assert InvitationOk(t, t.invitations[j]);
      assert pending.Some? ==> InvitationOk(t, t.invitations[pending.value]);
    }
    if pending.Some? {
      assert InvitationOk(t, t.invitations[pending.value]);
      assert t.invitations[pending.value].email == email;
      if !IsExpired(t.invitations[pending.value], t.now) { assert LiveFor(t, pending.value, email); }
    }
    if RetireExpired(t, email).Ok? { RetiringKeepsSeats(t, email); }
  }

  lemma AddressesAgree(t: Team, email: string)
    requires Lower(email) == email
    ensures MemberByEmail(t, email).Some? <==> exists m :: HasAddress(t, m, email)
    ensures MemberByEmail(t, email).Some? ==> HasAddress(t, MemberByEmail(t, email).value, email)
  {
    var found := MemberByEmail(t, email);
    if found.Some? { assert HasAddress(t, found.value, email); }
    if m: nat :| HasAddress(t, m, email) { assert Lower(EmailOf(t, t.members[m])) == Lower(email); }
  }

  /** Inviting succeeds exactly if the organization is active, the inviter may hand out the role, nobody with
      the address is or was a member, no live invitation is out for it, and a seat is free. It closes an
      expired invitation for the address and adds one for seven days under a new token. */
  lemma InvitesExactly(t: Team, inviter: UserId, granted: bool, rawEmail: string, role: Role)
    requires Inv(t)
    ensures var (u, r), email := CreateInvitation(t, inviter, granted, rawEmail, role), Normalize(rawEmail);
            && (r.Ok? <==> MayInvite(t, inviter, granted, email, role))
            && if r.Ok? then
                 && r.value == |t.invitations| == |u.invitations| - 1
                 && ExpiredClosed(t, u.invitations[..r.value], email)
                 && u.invitations[r.value]
                    == Invitation(email, role, Pending, t.nextToken, t.now + 7 * 24 * 3600, t.now, inviter, None)
                 && u == t.(invitations := u.invitations, nextToken := t.nextToken + 1)
               else u == t && NotInvitedFor(t, inviter, granted, email, role, r.error)
  {
    var email := Normalize(rawEmail);
    NormalizedOnce(rawEmail);
    hide Seats, Inv, Authorized, Unauthorized, Authorize, RoleError, Normalize, ExpiredClosed, Lower;
    ReachedRowsAreDistinct(t);
    ChecksAgree(t, inviter, granted, role);
    AddressesAgree(t, email);
    RetiringCloses(t, email);
  }

  // ---------------------------------------------------------------- resending and revoking

  /** What resending and revoking check alike. */
  ghost predicate NotManaged(t: Team, id: nat, actor: UserId, granted: bool, e: Error)
  {
    if !t.isActive then e == OrganizationNotFound
    else if !(exists m :: ActsAs(t, m, actor)) then e == NotOrganizationMember
    else if !(exists m :: Permitted(t, m, actor, granted)) then e == PermissionDenied
    else if id >= |t.invitations| then e == InvitationNotFound
    else if !Authorized(t, actor, granted, t.invitations[id].role) then e == RoleRefusal(t, t.invitations[id].role)
    else t.invitations[id].status != Pending && e == InvitationNotPending
  }

  ghost predicate Managed(t: Team, id: nat, actor: UserId, granted: bool)
  {
    && t.isActive && id < |t.invitations| && Authorized(t, actor, granted, t.invitations[id].role)
    && t.invitations[id].status == Pending
  }

  lemma ManagedExactly(t: Team, id: nat, actor: UserId, granted: bool)
    requires DistinctRows(t)
    ensures match ManageableInvitation(t, id, actor, granted)
            case Ok(i) => Managed(t, id, actor, granted) && i == t.invitations[id]
            case Err(e) => !Managed(t, id, actor, granted) && NotManaged(t, id, actor, granted, e)
  {
    if id < |t.invitations| {
      ChecksAgree(t, actor, granted, t.invitations[id].role);
    } else {
      ChecksAgree(t, actor, granted, Role(0, t.organization, false, ""));
    }
  }

  /** Revoking succeeds exactly for a pending invitation by who may manage it, and closes it. */
  lemma RevokesExactly(t: Team, id: nat, actor: UserId, granted: bool)
    requires DistinctRows(t)
    ensures var (u, r) := RevokeInvitation(t, id, actor, granted);
            if Managed(t, id, actor, granted) then
              r == Ok(id) && u == t.(invitations := t.invitations[id := t.invitations[id].(status := Revoked)])
            else u == t && r.Err? && NotManaged(t, id, actor, granted, r.error)
  {
    hide Managed, NotManaged, ManageableInvitation;
    ManagedExactly(t, id, actor, granted);
    if Managed(t, id, actor, granted) { ManagedIsThere(t, id, actor, granted); }
  }

  lemma ManagedIsThere(t: Team, id: nat, actor: UserId, granted: bool)
    requires Managed(t, id, actor, granted)
    ensures id < |t.invitations|
  {
  }

  /** Resending succeeds exactly for a pending invitation by who may manage it, a minute after it was last
      sent, and if it has expired only with a free seat. It gets a new token and seven more days. */
  lemma ResendsExactly(t: Team, id: nat, actor: UserId, granted: bool)
    requires DistinctRows(t)
    ensures var (u, r) := ResendInvitation(t, id, actor, granted);
            if !Managed(t, id, actor, granted) then u == t && r.Err? && NotManaged(t, id, actor, granted, r.error)
            else
              var i := t.invitations[id];
              if t.now - i.lastSentAt < 60 then (u, r) == (t, Err(ResendTooSoon))
              else if i.expiresAt <= t.now && !FreeSeat(t) then (u, r) == (t, Err(NoSeatError(t)))
              else
                && r == Ok(id)
                && u == t.(invitations := t.invitations[id := i.(token := t.nextToken, expiresAt := t.now + 7 * 24 * 3600, lastSentAt := t.now)],
                           nextToken := t.nextToken + 1)
  {
    hide NotManaged, ManageableInvitation, Seats, Authorized;
    ManagedExactly(t, id, actor, granted);
  }

  // ---------------------------------------------------------------- memberships

  /** The user acts as a manager: an active Owner or Administrator. */
  predicate Manages(t: Team, m: nat, user: UserId)
  {
    ActsAs(t, m, user) && (Owner(t.members[m].role) || Administrator(t.members[m].role))
  }

  /** A manager may change others, never the Owner, and an Administrator only as the Owner. */
  predicate MayChange(t: Team, id: nat, m: nat, actor: UserId)
  {
    && id < |t.members| && Manages(t, m, actor)
    && t.members[id].user != actor && !Owner(t.members[id].role)
    && (Administrator(t.members[id].role) ==> Owner(t.members[m].role))
  }

  ghost predicate NotChanged(t: Team, id: nat, actor: UserId, e: Error)
  {
    if id >= |t.members| then e == NoSuchMembership
    else if !(exists m :: Manages(t, m, actor)) then e == NotAuthorized
    else e == MembershipRuleViolation
  }

  lemma ManagersAgree(t: Team, id: nat, actor: UserId)
    requires DistinctRows(t)
    ensures match ManagingActor(t, id, actor)
            case Ok(a) => MayChange(t, id, a, actor) && forall m :: MayChange(t, id, m, actor) ==> m == a
            case Err(e) => (forall m :: !MayChange(t, id, m, actor)) && NotChanged(t, id, actor, e)
  {
    var found := Manager(t, actor);
    if found.Some? { assert Manages(t, found.value, actor); }
  }

  /** Removing succeeds exactly for who may change the member, and deactivates it. */
  lemma RemovesExactly(t: Team, id: nat, actor: UserId)
    requires DistinctRows(t)
    ensures var (u, r) := RemoveMembership(t, id, actor);
            if exists m :: MayChange(t, id, m, actor) then
              id < |t.members| && r == Ok(id) && u == t.(members := t.members[id := t.members[id].(active := false)])
            else u == t && r.Err? && NotChanged(t, id, actor, r.error)
  {
    hide NotChanged, ManagingActor;
    ManagersAgree(t, id, actor);
  }

  /** An update succeeds exactly for who may change the member and, if it gives another role, may hand that
      out. It sets role and active flag as far as they are given. */
  lemma UpdatesExactly(t: Team, id: nat, actor: UserId, role: Option<Role>, active: Option<bool>)
    requires DistinctRows(t)
    ensures var (u, r) := UpdateMembership(t, id, actor, role, active);
            if exists m :: MayChange(t, id, m, actor) && (role.Some? && role.value.id != t.members[id].role.id ==> Assignable(t, m, role.value))
            then
              && r == Ok(id) && id < |t.members| == |u.members|
              && u == t.(members := t.members[id := u.members[id]])
              && var before, after := t.members[id], u.members[id];
                 && after.user == before.user && after.invitation == before.invitation
                 && after.active == (if active.Some? then active.value else before.active)
                 && if role.Some? && role.value.id != before.role.id then after.role == role.value && after.grantedBy == actor
                    else after.role == before.role && after.grantedBy == before.grantedBy
            else u == t && r.Err? && NotChanged(t, id, actor, r.error)
  {
    ManagersAgree(t, id, actor);
  }

  // ---------------------------------------------------------------- time, plan and closing

  lemma InvitedRow(t: Team, inviter: UserId, granted: bool, rawEmail: string, role: Role)
    requires Inv(t) && CreateInvitation(t, inviter, granted, rawEmail, role).1.Ok?
    ensures var (u, r) := CreateInvitation(t, inviter, granted, rawEmail, role);
            && DistinctRows(u) && r.value < |u.invitations|
            && u.invitations[r.value] == Invitation(Normalize(rawEmail), role, Pending, t.nextToken, t.now + 7 * 24 * 3600, t.now, inviter, None)
            && u == t.(invitations := u.invitations, nextToken := u.nextToken)
            && t.isActive && role.organization == t.organization
            && (t.limit.Unlimited? || (t.limit.Limited? && Seats(u) <= t.limit.seats))
  {
    hide Seats, Inv, Normalize, ExpiredClosed;
    InvitesExactly(t, inviter, granted, rawEmail, role);
    CreateKeepsInv(t, inviter, granted, rawEmail, role);
    CreateSeats(t, inviter, granted, rawEmail, role);
    ReachedRowsAreDistinct(CreateInvitation(t, inviter, granted, rawEmail, role).0);
  }

  /** An invited user who is verified and no member can join for exactly seven days. */
  lemma InvitationLasts(t: Team, inviter: UserId, granted: bool, rawEmail: string, role: Role, user: UserId, seconds: nat)
    requires Inv(t) && user in t.users && Normalize(t.users[user]) == Normalize(rawEmail)
    requires CreateInvitation(t, inviter, granted, rawEmail, role).1.Ok?
    requires forall m :: 0 <= m < |t.members| ==> t.members[m].user != user
    ensures var (u, r) := Step(t, Create(inviter, granted, rawEmail, role));
            var v := Step(u, Tick(seconds)).0;
            && v.users == t.users && r.value < |v.invitations|
            && (Step(v, Accept(v.invitations[r.value].token, user, true)).1.Ok? <==> seconds < 7 * 24 * 60 * 60)
  {
    hide Inv, Normalize, CreateInvitation, AcceptInvitation;
    var (u, r) := CreateInvitation(t, inviter, granted, rawEmail, role);
    InvitedRow(t, inviter, granted, rawEmail, role);
    var v := u.(now := u.now + seconds);
    LiveCountFalls(u.invitations, u.now, v.now);
    WhetherItLasts(v, r.value, user);
  }

  lemma WhetherItLasts(v: Team, id: nat, user: UserId)
    requires DistinctRows(v) && user in v.users && id < |v.invitations| && v.isActive
    requires var i := v.invitations[id]; i.status == Pending && i.email == Normalize(v.users[user]) && i.role.organization == v.organization
    requires forall m :: 0 <= m < |v.members| ==> v.members[m].user != user
    requires v.limit.Unlimited? || (v.limit.Limited? && Seats(v) <= v.limit.seats)
    ensures AcceptInvitation(v, v.invitations[id].token, user, true).1.Ok? <==> v.now < v.invitations[id].expiresAt
  {
    hide Seats;
    if v.now < v.invitations[id].expiresAt {
      AcceptMakesMember(v, id, v.invitations[id].token, user, true);
    } else {
      PendingRefuses(v, id, user, true);
    }
  }

  /** After a change of plan a user who could join still can exactly if the new plan covers the seats in use. */
  lemma DowngradeBlocksExactly(t: Team, id: nat, token: nat, user: UserId, seats: nat)
    requires DistinctRows(t) && user in t.users && MayJoin(t, id, token, user, true)
    ensures var u := Step(t, ChangePlan(Limited(seats))).0;
            && u.users == t.users
            && (Seats(t) <= seats ==> Step(u, Accept(token, user, true)).1.Ok?)
            && (Seats(t) > seats ==> Step(u, Accept(token, user, true)) == (u, Err(UserLimitReached)))
  {
    var u := t.(limit := Limited(seats));
    if Seats(t) <= seats {
      AcceptMakesMember(u, id, token, user, true);
    } else {
      PendingRefuses(u, id, user, true);
      FirstWithToken(u, id);
    }
  }

  /** Once an organization is deactivated, whatever happens: nobody is invited and no invitation is resent,
      revoked or accepted. */
  lemma {:induction false} DeactivatedIsClosed(t: Team, events: seq<Event>)
    requires AllPossible(t.users, events) && !t.isActive
    ensures var u := Run(t, events);
            !u.isActive && u.invitations == t.invitations && |u.members| == |t.members|
    decreases |events|
  {
    if events != [] {
      StepKeepsUsers(t, events[0]);
      DeactivatedIsClosed(Step(t, events[0]).0, events[1..]);
    }
  }

  lemma DeactivationCloses(t: Team, events: seq<Event>)
    requires AllPossible(t.users, events)
    ensures var u := Step(t, Deactivate).0;
            && u.users == t.users
            && Run(u, events).invitations == t.invitations && |Run(u, events).members| == |t.members|
  {
    DeactivatedIsClosed(Step(t, Deactivate).0, events);
  }
}
