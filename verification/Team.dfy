/** Members and invitations of one organization: its rows, and what each service call does to them.
    A call is one step: the invitation services hold the organization's lock throughout, the membership
    services only that of the membership they change, so for them this is an assumption. A call that
    raises leaves the state as it was. Timestamps are seconds. */
module Team {
  import opened Results

  type UserId = nat

  const INVITATION_TTL: int := 7 * 24 * 60 * 60
  const RESEND_COOLDOWN: int := 60

  const OWNER_ROLE_SLUG: string := "owner"
  const ADMINISTRATOR_ROLE_SLUG: string := "administrator"

  datatype Role = Role(id: nat, organization: nat, isSystem: bool, slug: string)

  /** `grantedBy` is a history variable: who put the member into the present role. */
  datatype Member = Member(user: UserId, role: Role, active: bool, invitation: Option<nat>, grantedBy: UserId)

  datatype Status = Pending | Accepted | Revoked

  /** Tokens stand for their hashes. */
  datatype Invitation = Invitation(
    email: string, role: Role, status: Status, token: nat,
    expiresAt: int, lastSentAt: int, invitedBy: UserId, acceptedBy: Option<UserId>)

  datatype SeatLimit = NoSubscription | Unlimited | Limited(seats: nat)

  /** `users` holds the e-mail address of every user. Rows are identified by their position; none is
      ever deleted. `nextToken` stands for the generator of random tokens, which never repeats. */
  datatype Team = Team(
    organization: nat, creator: UserId, isActive: bool, users: map<UserId, string>,
    members: seq<Member>, invitations: seq<Invitation>,
    limit: SeatLimit, now: int, nextToken: nat)

  datatype Error =
    | OrganizationNotFound | NotOrganizationMember | PermissionDenied | InvalidRole | RoleNotAssignable
    | AlreadyMember | MembershipInactive | AlreadyInvited | UserLimitReached | SubscriptionRequired
    | InvitationNotFound | InvitationNotPending | ResendTooSoon
    | InvitationInvalid | InvitationExpired | EmailNotVerified | EmailMismatch
    | NotAuthorized | MembershipRuleViolation | NoSuchMembership

  // ---------------------------------------------------------------- e-mail addresses

  function LowerChar(c: char): char
  {
    if 'A' <= c <= 'Z' then c - 'A' + 'a' else c
  }

  function Lower(s: string): (r: string)
    ensures |r| == |s|
  {
    seq(|s|, i requires 0 <= i < |s| => LowerChar(s[i]))
  }

  predicate IsSpace(c: char)
  {
    c == ' ' || c == '\t' || c == '\n' || c == '\r'
  }

  function Strip(s: string): string
  {
    if s == [] then s
    else if IsSpace(s[0]) then Strip(s[1..])
    else if IsSpace(s[|s| - 1]) then Strip(s[..|s| - 1])
    else s
  }

  /** `email.strip().lower()`. */
  function Normalize(s: string): string
  {
    Lower(Strip(s))
  }

  lemma LowerTwice(s: string)
    ensures Lower(Lower(s)) == Lower(s)
  {
  }

  // ---------------------------------------------------------------- queries

  predicate IsOwnerRole(role: Role)
  {
    role.isSystem && role.slug == OWNER_ROLE_SLUG
  }

  predicate IsAdministratorRole(role: Role)
  {
    role.isSystem && role.slug == ADMINISTRATOR_ROLE_SLUG
  }

  predicate IsLive(i: Invitation, now: int)
  {
    i.status == Pending && i.expiresAt > now
  }

  predicate IsExpired(i: Invitation, now: int)
  {
    i.status == Pending && i.expiresAt <= now
  }

  function ActiveCount(members: seq<Member>): nat
  {
    if members == [] then 0
    else ActiveCount(members[..|members| - 1]) + if members[|members| - 1].active then 1 else 0
  }

  function LiveCount(invitations: seq<Invitation>, now: int): nat
  {
    if invitations == [] then 0
    else LiveCount(invitations[..|invitations| - 1], now)
         + if IsLive(invitations[|invitations| - 1], now) then 1 else 0
  }

  /** `seats_in_use`: active members plus live invitations. */
  function Seats(t: Team): nat
  {
    ActiveCount(t.members) + LiveCount(t.invitations, t.now)
  }

  /** `.first()` of a filtered query: the first position from `k` on that satisfies `p`. */
  function First<T>(rows: seq<T>, p: T -> bool, k: nat := 0): (r: Option<nat>)
    requires k <= |rows|
    ensures r.Some? ==> k <= r.value < |rows| && p(rows[r.value])
    ensures r.None? ==> forall i :: k <= i < |rows| ==> !p(rows[i])
    decreases |rows| - k
  {
    if k == |rows| then None else if p(rows[k]) then Some(k) else First(rows, p, k + 1)
  }

  function EffectiveMember(t: Team, user: UserId): Option<nat>
  {
    First(t.members, (m: Member) => m.active && m.user == user)
  }

  /** The address on file for a member. */
  function EmailOf(t: Team, m: Member): string
  {
    if m.user in t.users then t.users[m.user] else ""
  }

  function MemberByEmail(t: Team, email: string): Option<nat>
  {
    First(t.members, (m: Member) => Lower(EmailOf(t, m)) == Lower(email))
  }

  function PendingByEmail(t: Team, email: string): Option<nat>
  {
    First(t.invitations, (i: Invitation) => i.status == Pending && Lower(i.email) == Lower(email))
  }

  // ---------------------------------------------------------------- checks

  /** `_authorize`. `granted` says whether the actor's role carries the permission; the Owner always has it. */
  function Authorize(t: Team, actor: UserId, granted: bool): Result<nat, Error>
  {
    match EffectiveMember(t, actor)
    case None => Err(NotOrganizationMember)
    case Some(m) => if IsOwnerRole(t.members[m].role) || granted then Ok(m) else Err(PermissionDenied)
  }

  /** `_assert_role_assignable` of the invitation service. */
  function RoleError(actorRole: Role, role: Role, organization: nat): Option<Error>
  {
    if role.organization != organization then Some(InvalidRole)
    else if !role.isSystem then None
    else if role.slug == OWNER_ROLE_SLUG then Some(RoleNotAssignable)
    else if role.slug == ADMINISTRATOR_ROLE_SLUG && !IsOwnerRole(actorRole) then Some(RoleNotAssignable)
    else None
  }

  /** `_assert_seat_available`. */
  function SeatError(t: Team): Option<Error>
  {
    match t.limit
    case NoSubscription => Some(SubscriptionRequired)
    case Unlimited => None
    case Limited(n) => if Seats(t) >= n then Some(UserLimitReached) else None
  }

  // ---------------------------------------------------------------- invitation steps

  /** `_retire_expired_pending`. */
  function RetireExpired(t: Team, email: string): Result<Team, Error>
  {
    match PendingByEmail(t, email)
    case None => Ok(t)
    case Some(i) =>
      if !IsExpired(t.invitations[i], t.now) then Err(AlreadyInvited)
      else Ok(t.(invitations := t.invitations[i := t.invitations[i].(status := Revoked)]))
  }

  /** `create_invitation`; the result is the new invitation. */
  function CreateInvitation(t: Team, inviter: UserId, granted: bool, rawEmail: string, role: Role)
    : (Team, Result<nat, Error>)
  {
    if !t.isActive then (t, Err(OrganizationNotFound))
    else
      match Authorize(t, inviter, granted)
      case Err(e) => (t, Err(e))
      case Ok(actor) =>
        var refused := RoleError(t.members[actor].role, role, t.organization);
        if refused.Some? then (t, Err(refused.value))
        else
          var email := Normalize(rawEmail);
          match MemberByEmail(t, email)
          case Some(m) => (t, Err(if t.members[m].active then AlreadyMember else MembershipInactive))
          case None =>
            match RetireExpired(t, email)
            case Err(e) => (t, Err(e))
            case Ok(r) =>
              var full := SeatError(r);
              if full.Some? then (t, Err(full.value))
              else
                var i := Invitation(email, role, Pending, r.nextToken, r.now + INVITATION_TTL, r.now, inviter, None);
                (r.(invitations := r.invitations + [i], nextToken := r.nextToken + 1), Ok(|r.invitations|))
  }

  /** The checks `resend_invitation` and `revoke_invitation` share. */
  function ManageableInvitation(t: Team, id: nat, actor: UserId, granted: bool): Result<Invitation, Error>
  {
    if !t.isActive then Err(OrganizationNotFound)
    else
      match Authorize(t, actor, granted)
      case Err(e) => Err(e)
      case Ok(m) =>
        if id >= |t.invitations| then Err(InvitationNotFound)
        else
          var i := t.invitations[id];
          var refused := RoleError(t.members[m].role, i.role, t.organization);
          if refused.Some? then Err(refused.value)
          else if i.status != Pending then Err(InvitationNotPending)
          else Ok(i)
  }

  /** `resend_invitation`: a new token and a new expiry; an expired invitation needs a seat again. */
  function ResendInvitation(t: Team, id: nat, actor: UserId, granted: bool): (Team, Result<nat, Error>)
  {
    match ManageableInvitation(t, id, actor, granted)
    case Err(e) => (t, Err(e))
    case Ok(i) =>
      if t.now - i.lastSentAt < RESEND_COOLDOWN then (t, Err(ResendTooSoon))
      else
        var full := if IsExpired(i, t.now) then SeatError(t) else None;
        if full.Some? then (t, Err(full.value))
        else
          var j := i.(token := t.nextToken, expiresAt := t.now + INVITATION_TTL, lastSentAt := t.now);
          (t.(invitations := t.invitations[id := j], nextToken := t.nextToken + 1), Ok(id))
  }

  /** `revoke_invitation`. */
  function RevokeInvitation(t: Team, id: nat, actor: UserId, granted: bool): (Team, Result<nat, Error>)
  {
    match ManageableInvitation(t, id, actor, granted)
    case Err(e) => (t, Err(e))
    case Ok(i) => (t.(invitations := t.invitations[id := i.(status := Revoked)]), Ok(id))
  }

  /** The refusals of `accept_invitation` for a pending invitation, in order. */
  function AcceptError(t: Team, i: Invitation, user: UserId, verified: bool): Option<Error>
    requires user in t.users
  {
    var existing := First(t.members, (m: Member) => m.user == user);
    if i.status != Pending then Some(InvitationInvalid)
    else if IsExpired(i, t.now) then Some(InvitationExpired)
    else if !verified then Some(EmailNotVerified)
    else if Normalize(t.users[user]) != i.email then Some(EmailMismatch)
    else if existing.Some? then
      Some(if t.members[existing.value].active then AlreadyMember else MembershipInactive)
    else if i.role.organization != t.organization then Some(InvalidRole)
    else
      match t.limit
      case NoSubscription => Some(SubscriptionRequired)
      case Unlimited => None
      case Limited(n) => if Seats(t) > n then Some(UserLimitReached) else None
  }

  /** `accept_invitation`; the result is the membership, an old one on replay. */
  function AcceptInvitation(t: Team, token: nat, user: UserId, verified: bool): (Team, Result<nat, Error>)
    requires user in t.users
  {
    match First(t.invitations, (i: Invitation) => i.token == token)
    case None => (t, Err(InvitationInvalid))
    case Some(id) =>
      if !t.isActive then (t, Err(InvitationInvalid))
      else
        var i := t.invitations[id];
        if i.status == Accepted then
          var existing := First(t.members, (m: Member) => m.invitation == Some(id));
          if i.acceptedBy == Some(user) && existing.Some? then (t, Ok(existing.value))
          else (t, Err(InvitationInvalid))
        else
          var refused := AcceptError(t, i, user, verified);
          if refused.Some? then (t, Err(refused.value))
          else
            (t.(members := t.members + [Member(user, i.role, true, Some(id), i.invitedBy)],
                invitations := t.invitations[id := i.(status := Accepted, acceptedBy := Some(user))]),
             Ok(|t.members|))
  }

  // ---------------------------------------------------------------- membership steps

  /** `manager_role_slug` of the actor, as the member who manages. */
  function Manager(t: Team, actor: UserId): Option<nat>
  {
    First(t.members, (m: Member) =>
      m.active && m.user == actor && (IsOwnerRole(m.role) || IsAdministratorRole(m.role)))
  }

  /** `_lock_manageable_membership`: the refusal, or the acting manager. */
  function ManagingActor(t: Team, id: nat, actor: UserId): Result<nat, Error>
  {
    if id >= |t.members| then Err(NoSuchMembership)
    else
      match Manager(t, actor)
      case None => Err(NotAuthorized)
      case Some(a) =>
        var target := t.members[id];
        if target.user == actor then Err(MembershipRuleViolation)
        else if IsOwnerRole(target.role) then Err(MembershipRuleViolation)
        else if IsAdministratorRole(target.role) && !IsOwnerRole(t.members[a].role) then Err(MembershipRuleViolation)
        else Ok(a)
  }

  /** `_assert_role_assignable` of the membership service. */
  predicate RoleGrantable(actorRole: Role, role: Role, organization: nat)
  {
    && role.organization == organization
    && !IsOwnerRole(role)
    && (IsAdministratorRole(role) ==> IsOwnerRole(actorRole))
  }

  /** `update_membership`. */
  function UpdateMembership(t: Team, id: nat, actor: UserId, role: Option<Role>, active: Option<bool>)
    : (Team, Result<nat, Error>)
  {
    match ManagingActor(t, id, actor)
    case Err(e) => (t, Err(e))
    case Ok(a) =>
      var m := t.members[id];
      var changes := role.Some? && role.value.id != m.role.id;
      if changes && !RoleGrantable(t.members[a].role, role.value, t.organization) then
        (t, Err(MembershipRuleViolation))
      else
        var m1 := if changes then m.(role := role.value, grantedBy := actor) else m;
        var m2 := if active.Some? then m1.(active := active.value) else m1;
        (t.(members := t.members[id := m2]), Ok(id))
  }

  /** `remove_membership`. */
  function RemoveMembership(t: Team, id: nat, actor: UserId): (Team, Result<nat, Error>)
  {
    match ManagingActor(t, id, actor)
    case Err(e) => (t, Err(e))
    case Ok(_) => (t.(members := t.members[id := t.members[id].(active := false)]), Ok(id))
  }

  // ---------------------------------------------------------------- runs

  datatype Event =
    | Create(inviter: UserId, granted: bool, email: string, role: Role)
    | Resend(id: nat, actor: UserId, granted: bool)
    | Revoke(id: nat, actor: UserId, granted: bool)
    | Accept(token: nat, user: UserId, verified: bool)
    | Update(member: nat, manager: UserId, newRole: Option<Role>, newActive: Option<bool>)
    | Remove(member: nat, manager: UserId)
    | Tick(seconds: nat)
    | ChangePlan(newLimit: SeatLimit)
    | Deactivate

  /** Only a user of the system can be signed in to accept. */
  predicate Possible(users: map<UserId, string>, e: Event)
  {
    e.Accept? ==> e.user in users
  }

  function Step(t: Team, e: Event): (Team, Result<nat, Error>)
    requires Possible(t.users, e)
  {
    match e
    case Create(inviter, granted, email, role) => CreateInvitation(t, inviter, granted, email, role)
    case Resend(id, actor, granted) => ResendInvitation(t, id, actor, granted)
    case Revoke(id, actor, granted) => RevokeInvitation(t, id, actor, granted)
    case Accept(token, user, verified) => AcceptInvitation(t, token, user, verified)
    case Update(member, manager, role, active) => UpdateMembership(t, member, manager, role, active)
    case Remove(member, manager) => RemoveMembership(t, member, manager)
    case Tick(seconds) => (t.(now := t.now + seconds), Ok(0))
    case ChangePlan(limit) => (t.(limit := limit), Ok(0))
    case Deactivate => (t.(isActive := false), Ok(0))
  }

  /** `create_organization`: the creator is the one member, with the system Owner role. */
  function Founded(organization: nat, creator: UserId, ownerRole: nat, users: map<UserId, string>,
                   limit: SeatLimit, now: int): Team
  {
    var role := Role(ownerRole, organization, true, OWNER_ROLE_SLUG);
    Team(organization, creator, true, users, [Member(creator, role, true, None, creator)], [], limit, now, 0)
  }

  predicate AllPossible(users: map<UserId, string>, events: seq<Event>)
  {
    forall i :: 0 <= i < |events| ==> Possible(users, events[i])
  }

  /** The state after a sequence of calls, refused ones included. */
  function Run(t: Team, events: seq<Event>): Team
    requires AllPossible(t.users, events)
    decreases |events|
  {
    if events == [] then t else Run(Step(t, events[0]).0, events[1..])
  }
}
