/**
 * Invitations, members and owners of one workspace. Operations are taken one after
 * the other here; `TeamOwnerRace` interleaves the owner count of a removal or role
 * change with the writes of others.
 */
module TeamSeats {
  import opened Common

  datatype Role = OWNER | ADMIN | MANAGER | MEMBER | VIEWER | GUEST

  datatype MemberStatus = INVITED | ACTIVE | SUSPENDED | REMOVED

  datatype InviteStatus = PENDING | ACCEPTED | DECLINED | REVOKED | EXPIRED

  datatype Member = Member(role: Role, status: MemberStatus, deleted: bool)

  datatype Invite = Invite(email: string, role: Role, status: InviteStatus, expiresAt: int)

  /** Member rows by user, invite rows by id. */
  datatype Team = Team(members: map<string, Member>, invites: map<nat, Invite>, nextInvite: nat)

  datatype TeamError =
    | UnknownRole
    | DowngradePending
    | InviteAlreadyPending
    | MemberAlreadyExists
    | PlanLimitReached
    | InviteNotFound
    | InviteExpired
    | MemberNotFound
    | OwnerGrantRefused
    | LastOwnerProtected

  /** The state after the call and the error it throws, if any. */
  datatype Outcome = Outcome(team: Team, error: Option<TeamError>)

  /** Accounts: the e-mail address of each user. */
  type Accounts = string -> string

  const INVITE_EXPIRY_MS := 7 * 86_400_000

  function LowerChar(c: char): char {
    if 'A' <= c <= 'Z' then ((c as int) - ('A' as int) + ('a' as int)) as char else c
  }

  /** `toLowerCase` on ASCII. */
  function Lower(s: string): string {
    seq(|s|, i requires 0 <= i < |s| => LowerChar(s[i]))
  }

  /** The same character, or the same letter of A to Z in the other case. */
  predicate SameLetter(c: char, d: char) {
    || c == d
    || ('A' <= c <= 'Z' && d as int == c as int + 32)
    || ('A' <= d <= 'Z' && c as int == d as int + 32)
  }

  predicate SameSpelling(a: string, b: string) {
    |a| == |b| && forall i :: 0 <= i < |a| ==> SameLetter(a[i], b[i])
  }

  /** Lower case identifies exactly the spellings that differ in the case of letters. */
  lemma LowerIdentifies(a: string, b: string)
    ensures Lower(a) == Lower(b) <==> SameSpelling(a, b)
  {
    if Lower(a) == Lower(b) {
      assert |Lower(a)| == |a| && |Lower(b)| == |b|;
      forall i | 0 <= i < |a| ensures SameLetter(a[i], b[i]) {
        assert Lower(a)[i] == Lower(b)[i];
      }
    }
  }

  // ---------------------------------------------------------------- counts

  predicate IsActive(m: Member) {
    m.status == ACTIVE && !m.deleted
  }

  function ActiveMembers(team: Team): set<string> {
    set u | u in team.members && IsActive(team.members[u])
  }

  function PendingInvites(team: Team): set<nat> {
    set i | i in team.invites && team.invites[i].status == PENDING
  }

  function ActiveOwners(team: Team): set<string> {
    set u | u in team.members && IsActive(team.members[u]) && team.members[u].role == OWNER
  }

  function SeatsUsed(team: Team): nat {
    |ActiveMembers(team)| + |PendingInvites(team)|
  }

  predicate IdsIssued(team: Team) {
    forall i :: i in team.invites ==> i < team.nextInvite
  }

  predicate PendingFor(team: Team, email: string) {
    exists i :: i in team.invites && team.invites[i].status == PENDING && team.invites[i].email == email
  }

  predicate ActiveWithEmail(team: Team, email: string, accounts: Accounts) {
    exists u :: u in team.members && IsActive(team.members[u]) && accounts(u) == email
  }

  // ---------------------------------------------------------------- the operations

  /** A new workspace: its creator is the owner. */
  function NewTeam(owner: string): Team {
    Team(map[owner := Member(OWNER, ACTIVE, false)], map[], 0)
  }

  function SetInvite(team: Team, id: nat, status: InviteStatus): Team
    requires id in team.invites
  {
    team.(invites := team.invites[id := team.invites[id].(status := status)])
  }

  function SetMember(team: Team, user: string, m: Member): Team {
    team.(members := team.members[user := m])
  }

  function Invited(team: Team, email: string, role: Option<Role>, blocked: bool, limit: Option<nat>, now: int, accounts: Accounts): Outcome {
    if role.None? then Outcome(team, Some(UnknownRole))
    else if blocked then Outcome(team, Some(DowngradePending))
    else if PendingFor(team, email) then Outcome(team, Some(InviteAlreadyPending))
    else if ActiveWithEmail(team, email, accounts) then Outcome(team, Some(MemberAlreadyExists))
    else if limit.Some? && SeatsUsed(team) >= limit.value then Outcome(team, Some(PlanLimitReached))
    else
      var invite := Invite(email, role.value, PENDING, now + INVITE_EXPIRY_MS);
      Outcome(team.(invites := team.invites[team.nextInvite := invite], nextInvite := team.nextInvite + 1), None)
  }

  /** The upsert: a new row, or the existing one made active with the invited role. */
  function Joined(team: Team, id: nat, user: string): Team
    requires id in team.invites
  {
    SetInvite(SetMember(team, user, Member(team.invites[id].role, ACTIVE, false)), id, ACCEPTED)
  }

  function Accepted(team: Team, id: nat, user: string, now: int, accounts: Accounts): Outcome {
    if id !in team.invites || team.invites[id].status != PENDING then Outcome(team, Some(InviteNotFound))
    else if team.invites[id].expiresAt < now then Outcome(SetInvite(team, id, EXPIRED), Some(InviteExpired))
    else if Lower(team.invites[id].email) != Lower(accounts(user)) then Outcome(team, Some(InviteNotFound))
    else Outcome(Joined(team, id, user), None)
  }

  /** Declining or revoking a pending invite. */
  function Closed(team: Team, id: nat, status: InviteStatus): Outcome {
    if id !in team.invites || team.invites[id].status != PENDING then Outcome(team, Some(InviteNotFound))
    else Outcome(SetInvite(team, id, status), None)
  }

  predicate Present(team: Team, user: string) {
    user in team.members && !team.members[user].deleted
  }

  predicate LastOwner(team: Team, user: string)
    requires user in team.members
  {
    team.members[user].role == OWNER && |ActiveOwners(team)| <= 1
  }

  function MemberRemoved(team: Team, user: string): Outcome {
    if !Present(team, user) then Outcome(team, Some(MemberNotFound))
    else if LastOwner(team, user) then Outcome(team, Some(LastOwnerProtected))
    else Outcome(SetMember(team, user, team.members[user].(status := REMOVED, deleted := true)), None)
  }

  function RoleChanged(team: Team, actor: string, user: string, role: Option<Role>): Outcome {
    if !Present(team, user) then Outcome(team, Some(MemberNotFound))
    else if role.None? then Outcome(team, Some(UnknownRole))
    else if !Present(team, actor) then Outcome(team, Some(MemberNotFound))
    else if role.value == OWNER && team.members[actor].role != OWNER then Outcome(team, Some(OwnerGrantRefused))
    else if role.value != OWNER && LastOwner(team, user) then Outcome(team, Some(LastOwnerProtected))
    else Outcome(SetMember(team, user, team.members[user].(role := role.value)), None)
  }

  // ---------------------------------------------------------------- what callers may rely on

  /**
   * Goes through exactly for a known role, an address with neither invite nor member
   * and a free seat, and then reserves one seat with one new row.
   */
  ghost predicate InvitesOnce(before: Team, email: string, role: Option<Role>, blocked: bool, limit: Option<nat>, now: int, accounts: Accounts, out: Outcome) {
    var after := out.team;
    && (out.error.None? <==>
          && role.Some? && !blocked && !PendingFor(before, email) && !ActiveWithEmail(before, email, accounts)
          && (limit.Some? ==> SeatsUsed(before) < limit.value))
    && (out.error.Some? ==> after == before && match out.error.value
          case UnknownRole => role.None?
          case DowngradePending => blocked
          case InviteAlreadyPending => PendingFor(before, email)
          case MemberAlreadyExists => ActiveWithEmail(before, email, accounts)
          case PlanLimitReached => limit.Some? && SeatsUsed(before) >= limit.value
          case _ => false)
    && after.members == before.members
    && (out.error.None? ==>
          && SeatsUsed(after) == SeatsUsed(before) + 1
          && (exists i: nat :: i !in before.invites && after.invites == before.invites[i := Invite(email, role.value, PENDING, now + 604_800_000)]))
  }

  /**
   * Goes through exactly for a pending, timely invite to this account's address: the
   * account then sits in the invite's seat with the invite's role. A late call frees
   * the seat, any other changes nothing.
   */
  ghost predicate JoinsOnce(before: Team, id: nat, user: string, now: int, accounts: Accounts, out: Outcome) {
    var after := out.team;
    var pending := id in PendingInvites(before);
    && (out.error.None? <==> pending && now <= before.invites[id].expiresAt && SameSpelling(before.invites[id].email, accounts(user)))
    && (out.error == Some(InviteExpired) <==> pending && now > before.invites[id].expiresAt)
    && (out.error.Some? && out.error != Some(InviteExpired) ==> out == Outcome(before, Some(InviteNotFound)))
    && (out.error == Some(InviteExpired) ==>
          && after.members == before.members && after.invites == before.invites[id := before.invites[id].(status := EXPIRED)]
          && SeatsUsed(after) == SeatsUsed(before) - 1)
    && (out.error.None? ==>
          && after.members == before.members[user := Member(before.invites[id].role, ACTIVE, false)]
          && after.invites == before.invites[id := before.invites[id].(status := ACCEPTED)]
          && SeatsUsed(after) == SeatsUsed(before) - (if user in ActiveMembers(before) then 1 else 0))
  }

  /** Goes through exactly for a pending invite, whose seat becomes free; nothing else changes. */
  ghost predicate GivesSeatBack(before: Team, id: nat, status: InviteStatus, out: Outcome) {
    var after := out.team;
    && (out.error.None? <==> id in PendingInvites(before))
    && (out.error.Some? ==> out == Outcome(before, Some(InviteNotFound)))
    && (out.error.None? ==>
          && SeatsUsed(after) == SeatsUsed(before) - 1
          && after.invites == before.invites[id := before.invites[id].(status := status)])
    && after.members == before.members
  }

  /** Takes exactly this user out of the members and owners; a workspace with an active owner keeps one. */
  ghost predicate RemovesOne(before: Team, user: string, out: Outcome) {
    var after := out.team;
    && (out.error == Some(MemberNotFound) <==> !Present(before, user))
    && (out.error == Some(LastOwnerProtected) <==> Present(before, user) && before.members[user].role == OWNER && |ActiveOwners(before)| <= 1)
    && (out.error.Some? ==> out.error.value in {MemberNotFound, LastOwnerProtected} && after == before)
    && (out.error.None? ==>
          && after.members == before.members[user := before.members[user].(status := REMOVED, deleted := true)]
          && ActiveMembers(after) == ActiveMembers(before) - {user} && ActiveOwners(after) == ActiveOwners(before) - {user})
    && (ActiveOwners(before) != {} ==> ActiveOwners(after) != {})
    && SeatsUsed(after) <= SeatsUsed(before)
    && after.invites == before.invites && after.members - {user} == before.members - {user}
  }

  /**
   * Changes one role and no seat. Only an owner makes an owner, and a workspace with
   * an active owner keeps one.
   */
  ghost predicate ChangesRoleOnly(before: Team, actor: string, user: string, role: Option<Role>, out: Outcome) {
    var after := out.team;
    && (out.error.None? <==>
          && Present(before, user) && Present(before, actor) && role.Some?
          && (role == Some(OWNER) ==> before.members[actor].role == OWNER)
          && (role != Some(OWNER) && before.members[user].role == OWNER ==> |ActiveOwners(before)| > 1))
    && (out.error.Some? ==> after == before && match out.error.value
          case MemberNotFound => !Present(before, user) || !Present(before, actor)
          case UnknownRole => role.None?
          case OwnerGrantRefused => role == Some(OWNER) && Present(before, actor) && before.members[actor].role != OWNER
          case LastOwnerProtected => role != Some(OWNER) && Present(before, user) && before.members[user].role == OWNER && |ActiveOwners(before)| <= 1
          case _ => false)
    && (out.error.None? ==> user in after.members && after.members[user] == before.members[user].(role := role.value))
    && ActiveMembers(after) == ActiveMembers(before) && SeatsUsed(after) == SeatsUsed(before)
    && (forall u :: u in ActiveOwners(after) && u !in ActiveOwners(before) ==> u == user && actor in before.members && before.members[actor].role == OWNER)
    && (ActiveOwners(before) != {} ==> ActiveOwners(after) != {})
    && after.invites == before.invites && after.members - {user} == before.members - {user}
  }

  // ---------------------------------------------------------------- the services

  class TeamService {
    const accounts: Accounts
    var members: map<string, Member>
    var invites: map<nat, Invite>
    var nextInvite: nat

    function State(): Team
      reads this
    {
      Team(members, invites, nextInvite)
    }

    /** Row ids are issued in order. */
    predicate Valid()
      reads this
    {
      IdsIssued(State())
    }

    constructor (accounts: Accounts, owner: string)
      ensures Valid() && this.accounts == accounts && State() == NewTeam(owner)
    {
      this.accounts := accounts;
      members, invites, nextInvite := map[owner := Member(OWNER, ACTIVE, false)], map[], 0;
    }

    /** An accepted call reserves one seat under the limit for an address that has neither an invite nor a member. */
    method InviteMember(email: string, role: Option<Role>, blocked: bool, limit: Option<nat>, now: int) returns (error: Option<TeamError>)
      requires Valid()
      modifies this
      ensures Valid()
      ensures InvitesOnce(old(State()), email, role, blocked, limit, now, accounts, Outcome(State(), error))
      ensures Outcome(State(), error) == Invited(old(State()), email, role, blocked, limit, now, accounts)
    {
      InvitedOnce(State(), email, role, blocked, limit, now, accounts);
      if role.None? { return Some(UnknownRole); }
      if blocked { return Some(DowngradePending); }
      if PendingFor(State(), email) { return Some(InviteAlreadyPending); }
      if ActiveWithEmail(State(), email, accounts) { return Some(MemberAlreadyExists); }
      var activeCount, pendingCount := |ActiveMembers(State())|, |PendingInvites(State())|;
      if limit.Some? && activeCount + pendingCount >= limit.value { return Some(PlanLimitReached); }
      var invite := Invite(email, role.value, PENDING, now + INVITE_EXPIRY_MS);
      invites, nextInvite := invites[nextInvite := invite], nextInvite + 1;
      error := None;
    }

    /**
     * The invited account becomes an active member with the invited role, in the seat
     * the invite held; a late call frees that seat; any other call changes nothing.
     */
    method AcceptInvitation(id: nat, user: string, now: int) returns (error: Option<TeamError>)
      requires Valid()
      modifies this
      ensures Valid()
      ensures JoinsOnce(old(State()), id, user, now, accounts, Outcome(State(), error))
      ensures Outcome(State(), error) == Accepted(old(State()), id, user, now, accounts)
    {
      AcceptedOnce(State(), id, user, now, accounts);
      if id !in invites || invites[id].status != PENDING { return Some(InviteNotFound); }
      var invite := invites[id];
      if invite.expiresAt < now {
        invites := invites[id := invite.(status := EXPIRED)];
        return Some(InviteExpired);
      }
      if Lower(invite.email) != Lower(accounts(user)) { return Some(InviteNotFound); }
      members := members[user := Member(invite.role, ACTIVE, false)];
      invites := invites[id := invite.(status := ACCEPTED)];
      error := None;
    }

    /** Declining a pending invite gives its seat back; any other id is refused. */
    method RejectInvitation(id: nat) returns (error: Option<TeamError>)
      requires Valid()
      modifies this
      ensures Valid()
      ensures GivesSeatBack(old(State()), id, DECLINED, Outcome(State(), error))
      ensures Outcome(State(), error) == Closed(old(State()), id, DECLINED)
    {
      ClosedGivesSeatBack(State(), id, DECLINED);
      if id !in invites || invites[id].status != PENDING { return Some(InviteNotFound); }
      invites := invites[id := invites[id].(status := DECLINED)];
      error := None;
    }

    /** Revoking a pending invite gives its seat back; any other id is refused. */
    method CancelInvitation(id: nat) returns (error: Option<TeamError>)
      requires Valid()
      modifies this
      ensures Valid()
      ensures GivesSeatBack(old(State()), id, REVOKED, Outcome(State(), error))
      ensures Outcome(State(), error) == Closed(old(State()), id, REVOKED)
    {
      ClosedGivesSeatBack(State(), id, REVOKED);
      if id !in invites || invites[id].status != PENDING { return Some(InviteNotFound); }
      invites := invites[id := invites[id].(status := REVOKED)];
      error := None;
    }

    method CountActiveOwners() returns (owners: nat)
      ensures owners == |ActiveOwners(State())|
    {
      owners := |ActiveOwners(State())|;
    }

    /** Takes exactly this user out of the members; a workspace that has an active owner keeps one. */
    method RemoveMember(user: string) returns (error: Option<TeamError>)
      requires Valid()
      modifies this
      ensures Valid()
      ensures RemovesOne(old(State()), user, Outcome(State(), error))
      ensures Outcome(State(), error) == MemberRemoved(old(State()), user)
    {
      RemovedOne(State(), user);
      if user !in members || members[user].deleted { return Some(MemberNotFound); }
      if members[user].role == OWNER {
        var ownerCount := CountActiveOwners();
        if ownerCount <= 1 { return Some(LastOwnerProtected); }
      }
      members := members[user := members[user].(status := REMOVED, deleted := true)];
      error := None;
    }

    /**
     * Gives the target its new role and nothing else: only an owner makes an owner,
     * and a workspace that has an active owner keeps one.
     */
    method ChangeMemberRole(actor: string, user: string, role: Option<Role>) returns (error: Option<TeamError>)
      requires Valid()
      modifies this
      ensures Valid()
      ensures ChangesRoleOnly(old(State()), actor, user, role, Outcome(State(), error))
      ensures Outcome(State(), error) == RoleChanged(old(State()), actor, user, role)
    {
      RoleChangedOnly(State(), actor, user, role);
      if user !in members || members[user].deleted { return Some(MemberNotFound); }
      if role.None? { return Some(UnknownRole); }
      if actor !in members || members[actor].deleted { return Some(MemberNotFound); }
      if role.value == OWNER && members[actor].role != OWNER { return Some(OwnerGrantRefused); }
      if members[user].role == OWNER && role.value != OWNER {
        var ownerCount := CountActiveOwners();
        if ownerCount <= 1 { return Some(LastOwnerProtected); }
      }
      members := members[user := members[user].(role := role.value)];
      error := None;
    }
  }

  // ---------------------------------------------------------------- runs

  datatype Event =
    | Invitation(email: string, role: Option<Role>, blocked: bool, now: int)
    | Acceptance(id: nat, user: string, now: int)
    | Rejection(id: nat)
    | Cancellation(id: nat)
    | Removal(user: string)
    | RoleChange(actor: string, user: string, role: Option<Role>)

  function Handle(team: Team, e: Event, limit: Option<nat>, accounts: Accounts): Outcome {
    match e
    case Invitation(email, role, blocked, now) => Invited(team, email, role, blocked, limit, now, accounts)
    case Acceptance(id, user, now) => Accepted(team, id, user, now, accounts)
    case Rejection(id) => Closed(team, id, DECLINED)
    case Cancellation(id) => Closed(team, id, REVOKED)
    case Removal(user) => MemberRemoved(team, user)
    case RoleChange(actor, user, role) => RoleChanged(team, actor, user, role)
  }

  function Run(team: Team, events: seq<Event>, limit: Option<nat>, accounts: Accounts): Team {
    if events == [] then team
    else Handle(Run(team, events[..|events| - 1], limit, accounts), events[|events| - 1], limit, accounts).team
  }

  /** Whoever can accept an invitation to one of the addresses has exactly that address. */
  ghost predicate Spelled(accounts: Accounts, addresses: iset<string>) {
    forall e, u: string :: e in addresses && Lower(e) == Lower(accounts(u)) ==> e == accounts(u)
  }

  ghost predicate InvitesGoTo(events: seq<Event>, addresses: iset<string>) {
    forall k :: 0 <= k < |events| && events[k].Invitation? ==> events[k].email in addresses
  }

  // ---------------------------------------------------------------- the invariant

  ghost predicate SeatsOk(team: Team, limit: Option<nat>) {
    limit.Some? ==> SeatsUsed(team) <= limit.value
  }

  predicate InviteOk(team: Team, i: nat, accounts: Accounts)
    requires i in team.invites
  {
    team.invites[i].status == PENDING ==> !ActiveWithEmail(team, team.invites[i].email, accounts)
  }

  /** No pending invite addresses an active member, and each address has at most one. */
  ghost predicate InvitesOk(team: Team, accounts: Accounts, addresses: iset<string>) {
    && (forall i :: i in team.invites ==> i < team.nextInvite && team.invites[i].email in addresses)
    && (forall i :: i in team.invites ==> InviteOk(team, i, accounts))
    && (forall i, j :: i in PendingInvites(team) && j in PendingInvites(team) && team.invites[i].email == team.invites[j].email ==> i == j)
  }

  ghost predicate Inv(team: Team, limit: Option<nat>, accounts: Accounts, addresses: iset<string>) {
    SeatsOk(team, limit) && ActiveOwners(team) != {} && InvitesOk(team, accounts, addresses)
  }

  /** Closing a pending invite frees its seat. */
  lemma ClosingFreesSeat(team: Team, id: nat, status: InviteStatus)
    requires id in team.invites && team.invites[id].status == PENDING && status != PENDING
    ensures SeatsUsed(SetInvite(team, id, status)) == SeatsUsed(team) - 1
    ensures PendingInvites(SetInvite(team, id, status)) == PendingInvites(team) - {id}
    ensures ActiveOwners(SetInvite(team, id, status)) == ActiveOwners(team)
  {
    var t := SetInvite(team, id, status);
    assert PendingInvites(t) == PendingInvites(team) - {id};
    assert ActiveMembers(t) == ActiveMembers(team);
    assert ActiveOwners(t) == ActiveOwners(team);
  }

  /** An invitation reserves one more seat. */
  lemma InvitingReservesSeat(team: Team, invite: Invite)
    requires team.nextInvite !in team.invites && invite.status == PENDING
    ensures var t := team.(invites := team.invites[team.nextInvite := invite], nextInvite := team.nextInvite + 1);
            SeatsUsed(t) == SeatsUsed(team) + 1 && ActiveOwners(t) == ActiveOwners(team)
  {
    var t := team.(invites := team.invites[team.nextInvite := invite], nextInvite := team.nextInvite + 1);
    assert PendingInvites(t) == PendingInvites(team) + {team.nextInvite};
    assert ActiveMembers(t) == ActiveMembers(team);
    assert ActiveOwners(t) == ActiveOwners(team);
  }

  lemma JoiningAddsMember(team: Team, id: nat, user: string)
    requires id in team.invites
    ensures ActiveMembers(Joined(team, id, user)) == ActiveMembers(team) + {user}
  {
    assert ActiveMembers(Joined(team, id, user)) == ActiveMembers(team) + {user};
  }

  lemma JoiningClosesInvite(team: Team, id: nat, user: string)
    requires id in team.invites
    ensures PendingInvites(Joined(team, id, user)) == PendingInvites(team) - {id}
  {
    assert PendingInvites(Joined(team, id, user)) == PendingInvites(team) - {id};
  }

  /** Joining gives the invite's seat to the user, or frees it when the user already has one. */
  lemma JoiningSettlesSeat(team: Team, id: nat, user: string)
    requires id in team.invites && team.invites[id].status == PENDING
    ensures PendingInvites(Joined(team, id, user)) == PendingInvites(team) - {id}
    ensures ActiveMembers(Joined(team, id, user)) == ActiveMembers(team) + {user}
    ensures SeatsUsed(Joined(team, id, user)) == SeatsUsed(team) - (if user in ActiveMembers(team) then 1 else 0)
  {
    JoiningAddsMember(team, id, user);
    JoiningClosesInvite(team, id, user);
    if user in ActiveMembers(team) { assert ActiveMembers(team) + {user} == ActiveMembers(team); }
  }

  /** Joining turns the reserved seat into an occupied one and takes no owner away. */
  lemma JoiningKeepsSeats(team: Team, id: nat, user: string)
    requires id in team.invites && team.invites[id].status == PENDING && user !in ActiveMembers(team)
    ensures SeatsUsed(Joined(team, id, user)) == SeatsUsed(team)
    ensures ActiveOwners(team) <= ActiveOwners(Joined(team, id, user))
  {
    JoiningSettlesSeat(team, id, user);
  }

  /** Rewriting one row touches the owners at that user alone. */
  lemma UpdateMovesOwner(team: Team, user: string, m: Member)
    ensures ActiveOwners(SetMember(team, user, m)) == ActiveOwners(team) - {user} + (if IsActive(m) && m.role == OWNER then {user} else {})
  {
    var t := SetMember(team, user, m);
    if IsActive(m) && m.role == OWNER {
      assert ActiveOwners(t) == ActiveOwners(team) - {user} + {user};
    } else {
      assert ActiveOwners(t) == ActiveOwners(team) - {user};
    }
  }

  lemma ElsewhereSame(team: Team, user: string, m: Member)
    ensures SetMember(team, user, m).members - {user} == team.members - {user}
  {
  }

  /** Making a member inactive frees at most its seat. */
  lemma LeavingFreesSeat(team: Team, user: string, m: Member)
    requires !IsActive(m)
    ensures ActiveMembers(SetMember(team, user, m)) == ActiveMembers(team) - {user}
    ensures SeatsUsed(SetMember(team, user, m)) <= SeatsUsed(team)
  {
    var t := SetMember(team, user, m);
    assert ActiveMembers(t) == ActiveMembers(team) - {user};
    assert PendingInvites(t) == PendingInvites(team);
    SubsetSize(ActiveMembers(t), ActiveMembers(team));
  }

  /** A change of role alone moves no seat. */
  lemma StayingKeepsSeat(team: Team, user: string, m: Member)
    requires user in team.members && IsActive(m) == IsActive(team.members[user])
    ensures ActiveMembers(SetMember(team, user, m)) == ActiveMembers(team)
    ensures SeatsUsed(SetMember(team, user, m)) == SeatsUsed(team)
  {
    var t := SetMember(team, user, m);
    assert ActiveMembers(t) == ActiveMembers(team);
    assert PendingInvites(t) == PendingInvites(team);
  }

  lemma OthersRemain(owners: set<string>, user: string)
    requires |owners| > 1
    ensures owners - {user} != {}
  {
    if owners - {user} == {} {
      assert owners <= {user};
      assert |owners| <= |{user}| by { SubsetSize(owners, {user}); }
    }
  }

  lemma {:induction false} SubsetSize<T>(a: set<T>, b: set<T>)
    requires a <= b
    ensures |a| <= |b|
  {
    if a != {} {
      var x :| x in a;
      SubsetSize(a - {x}, b - {x});
    }
  }

  /** Unless the user is the last owner, some active owner is somebody else. */
  lemma OwnersLeft(team: Team, user: string)
    requires user in team.members && !LastOwner(team, user) && ActiveOwners(team) != {}
    ensures ActiveOwners(team) - {user} != {}
  {
    if user in ActiveOwners(team) { OthersRemain(ActiveOwners(team), user); } else { assert ActiveOwners(team) - {user} == ActiveOwners(team); }
  }

  lemma InvitedOnce(team: Team, email: string, role: Option<Role>, blocked: bool, limit: Option<nat>, now: int, accounts: Accounts)
    requires IdsIssued(team)
    ensures InvitesOnce(team, email, role, blocked, limit, now, accounts, Invited(team, email, role, blocked, limit, now, accounts))
  {
    var out := Invited(team, email, role, blocked, limit, now, accounts);
    if out.error.None? { InvitingReservesSeat(team, out.team.invites[team.nextInvite]); }
  }

  lemma AcceptedOnce(team: Team, id: nat, user: string, now: int, accounts: Accounts)
    ensures JoinsOnce(team, id, user, now, accounts, Accepted(team, id, user, now, accounts))
  {
    if id in PendingInvites(team) {
      LowerIdentifies(team.invites[id].email, accounts(user));
      ClosingFreesSeat(team, id, EXPIRED);
      JoiningSettlesSeat(team, id, user);
    }
  }

  lemma ClosedGivesSeatBack(team: Team, id: nat, status: InviteStatus)
    requires status != PENDING
    ensures GivesSeatBack(team, id, status, Closed(team, id, status))
  {
    if id in PendingInvites(team) { ClosingFreesSeat(team, id, status); }
  }

  lemma RemovedOne(team: Team, user: string)
    ensures RemovesOne(team, user, MemberRemoved(team, user))
  {
    if MemberRemoved(team, user).error.None? {
      var m := team.members[user].(status := REMOVED, deleted := true);
      UpdateMovesOwner(team, user, m);
      ElsewhereSame(team, user, m);
      LeavingFreesSeat(team, user, m);
      if ActiveOwners(team) != {} { OwnersLeft(team, user); }
    }
  }

  lemma RoleChangedOnly(team: Team, actor: string, user: string, role: Option<Role>)
    ensures ChangesRoleOnly(team, actor, user, role, RoleChanged(team, actor, user, role))
  {
    if RoleChanged(team, actor, user, role).error.None? {
      var m := team.members[user].(role := role.value);
      UpdateMovesOwner(team, user, m);
      ElsewhereSame(team, user, m);
      StayingKeepsSeat(team, user, m);
      if m.role != OWNER && ActiveOwners(team) != {} { OwnersLeft(team, user); }
    }
  }

  lemma {:induction false} MemberUpdateKeeps(team: Team, user: string, m: Member, limit: Option<nat>, accounts: Accounts, addresses: iset<string>)
    requires Inv(team, limit, accounts, addresses) && user in team.members
    requires IsActive(m) ==> IsActive(team.members[user])
    requires team.members[user].role == OWNER && !(IsActive(m) && m.role == OWNER) && IsActive(team.members[user]) ==> |ActiveOwners(team)| > 1
    ensures Inv(SetMember(team, user, m), limit, accounts, addresses)
  {
    var t := SetMember(team, user, m);
    assert ActiveMembers(t) <= ActiveMembers(team);
    SubsetSize(ActiveMembers(t), ActiveMembers(team));
    assert PendingInvites(t) == PendingInvites(team);
    assert ActiveOwners(team) - {user} <= ActiveOwners(t);
    if user in ActiveOwners(team) && user !in ActiveOwners(t) {
      OthersRemain(ActiveOwners(team), user);
    } else {
      assert ActiveOwners(team) <= ActiveOwners(t);
    }
    forall i | i in t.invites ensures InviteOk(t, i, accounts) {
      assert InviteOk(team, i, accounts);
    }
  }

  lemma InviteKeeps(team: Team, email: string, role: Option<Role>, blocked: bool, now: int, limit: Option<nat>, accounts: Accounts, addresses: iset<string>)
    requires Inv(team, limit, accounts, addresses) && email in addresses
    ensures Inv(Invited(team, email, role, blocked, limit, now, accounts).team, limit, accounts, addresses)
  {
    var t := Invited(team, email, role, blocked, limit, now, accounts).team;
    if t != team {
      InvitingReservesSeat(team, t.invites[team.nextInvite]);
      forall i | i in t.invites ensures InviteOk(t, i, accounts) {
        if i in team.invites { assert InviteOk(team, i, accounts); }
        assert ActiveWithEmail(t, t.invites[i].email, accounts) ==> ActiveWithEmail(team, t.invites[i].email, accounts);
      }
    }
  }

  lemma CloseKeeps(team: Team, id: nat, status: InviteStatus, limit: Option<nat>, accounts: Accounts, addresses: iset<string>)
    requires Inv(team, limit, accounts, addresses) && status != PENDING
    requires id in team.invites && team.invites[id].status == PENDING
    ensures Inv(SetInvite(team, id, status), limit, accounts, addresses)
  {
    var t := SetInvite(team, id, status);
    ClosingFreesSeat(team, id, status);
    forall i | i in t.invites ensures InviteOk(t, i, accounts) {
      assert InviteOk(team, i, accounts);
    }
  }

  /** The invited address is that of no active member, so whoever accepts is not one yet. */
  lemma AcceptKeeps(team: Team, id: nat, user: string, limit: Option<nat>, accounts: Accounts, addresses: iset<string>)
    requires Inv(team, limit, accounts, addresses) && Spelled(accounts, addresses)
    requires id in team.invites && team.invites[id].status == PENDING && Lower(team.invites[id].email) == Lower(accounts(user))
    ensures Inv(Joined(team, id, user), limit, accounts, addresses) && user !in ActiveMembers(team)
  {
    var t := Joined(team, id, user);
    assert InviteOk(team, id, accounts);
    assert team.invites[id].email == accounts(user);
    JoiningKeepsSeats(team, id, user);
    forall i | i in t.invites ensures InviteOk(t, i, accounts) {
      assert InviteOk(team, i, accounts);
      assert i != id && t.invites[i].status == PENDING ==> i in PendingInvites(team) && t.invites[i].email != accounts(user);
    }
  }

  lemma {:induction false} EventKeepsInv(team: Team, e: Event, limit: Option<nat>, accounts: Accounts, addresses: iset<string>)
    requires Inv(team, limit, accounts, addresses) && Spelled(accounts, addresses)
    requires e.Invitation? ==> e.email in addresses
    ensures Inv(Handle(team, e, limit, accounts).team, limit, accounts, addresses)
  {
    match e
    case Invitation(email, role, blocked, now) => InviteKeeps(team, email, role, blocked, now, limit, accounts, addresses);
    case Acceptance(id, user, now) =>
      if id in team.invites && team.invites[id].status == PENDING {
        if team.invites[id].expiresAt < now {
          CloseKeeps(team, id, EXPIRED, limit, accounts, addresses);
        } else if Lower(team.invites[id].email) == Lower(accounts(user)) {
          AcceptKeeps(team, id, user, limit, accounts, addresses);
        }
      }
    case Rejection(id) =>
      if id in team.invites && team.invites[id].status == PENDING { CloseKeeps(team, id, DECLINED, limit, accounts, addresses); }
    case Cancellation(id) =>
      if id in team.invites && team.invites[id].status == PENDING { CloseKeeps(team, id, REVOKED, limit, accounts, addresses); }
    case Removal(user) =>
      if MemberRemoved(team, user).error.None? {
        MemberUpdateKeeps(team, user, team.members[user].(status := REMOVED, deleted := true), limit, accounts, addresses);
      }
    case RoleChange(actor, user, role) =>
      if RoleChanged(team, actor, user, role).error.None? {
        MemberUpdateKeeps(team, user, team.members[user].(role := role.value), limit, accounts, addresses);
      }
  }

  /**
   * Over every run on a fixed plan: active members and pending invites never exceed
   * the seats, an active owner always remains, and no address is invited twice or
   * while its member is active.
   */
  lemma {:induction false} RunKeepsInv(team: Team, events: seq<Event>, limit: Option<nat>, accounts: Accounts, addresses: iset<string>)
    requires Inv(team, limit, accounts, addresses) && Spelled(accounts, addresses)
    requires InvitesGoTo(events, addresses)
    ensures Inv(Run(team, events, limit, accounts), limit, accounts, addresses)
  {
    if events != [] {
      RunKeepsInv(team, events[..|events| - 1], limit, accounts, addresses);
      EventKeepsInv(Run(team, events[..|events| - 1], limit, accounts), events[|events| - 1], limit, accounts, addresses);
    }
  }

  // ---------------------------------------------------------------- what holds for every spelling

  /** One pending invite per address, and ids in order. */
  predicate OneInviteEach(team: Team) {
    && IdsIssued(team)
    && forall i, j :: i in PendingInvites(team) && j in PendingInvites(team) && team.invites[i].email == team.invites[j].email ==> i == j
  }

  lemma InvitingKeepsEach(team: Team, email: string, role: Option<Role>, blocked: bool, now: int, limit: Option<nat>, accounts: Accounts)
    requires OneInviteEach(team)
    ensures OneInviteEach(Invited(team, email, role, blocked, limit, now, accounts).team)
  {
    if Invited(team, email, role, blocked, limit, now, accounts).error.None? {
      AddingKeepsEach(team, Invite(email, role.value, PENDING, now + INVITE_EXPIRY_MS));
    }
  }

  lemma AddingKeepsEach(team: Team, invite: Invite)
    requires OneInviteEach(team) && !PendingFor(team, invite.email)
    ensures OneInviteEach(team.(invites := team.invites[team.nextInvite := invite], nextInvite := team.nextInvite + 1))
  {
    var n := team.nextInvite;
    var after := team.(invites := team.invites[n := invite], nextInvite := n + 1);
    forall i, j | i in PendingInvites(after) && j in PendingInvites(after) && after.invites[i].email == after.invites[j].email ensures i == j {
      if i != n && j != n {
        assert i in PendingInvites(team) && j in PendingInvites(team);
      }
    }
  }

  lemma ClosingKeepsEach(team: Team, after: Team, id: nat, status: InviteStatus)
    requires OneInviteEach(team) && id in team.invites && status != PENDING
    requires after.nextInvite == team.nextInvite && after.invites == team.invites[id := team.invites[id].(status := status)]
    ensures OneInviteEach(after)
  {
    assert PendingInvites(after) <= PendingInvites(team);
  }

  lemma EventKeepsEach(team: Team, e: Event, limit: Option<nat>, accounts: Accounts)
    requires OneInviteEach(team)
    ensures OneInviteEach(Handle(team, e, limit, accounts).team)
  {
    var after := Handle(team, e, limit, accounts).team;
    match e
    case Invitation(email, role, blocked, now) => InvitingKeepsEach(team, email, role, blocked, now, limit, accounts);
    case Acceptance(id, _, _) => if after != team { ClosingKeepsEach(team, after, id, after.invites[id].status); }
    case Rejection(id) => if after != team { ClosingKeepsEach(team, after, id, DECLINED); }
    case Cancellation(id) => if after != team { ClosingKeepsEach(team, after, id, REVOKED); }
    case Removal(_) =>
    case RoleChange(_, _, _) =>
  }

  lemma EventKeepsSeats(team: Team, e: Event, limit: Option<nat>, accounts: Accounts)
    requires IdsIssued(team) && SeatsOk(team, limit)
    ensures SeatsOk(Handle(team, e, limit, accounts).team, limit)
  {
    match e
    case Invitation(email, role, blocked, now) => InvitedOnce(team, email, role, blocked, limit, now, accounts);
    case Acceptance(id, user, now) => AcceptedOnce(team, id, user, now, accounts);
    case Rejection(id) => ClosedGivesSeatBack(team, id, DECLINED);
    case Cancellation(id) => ClosedGivesSeatBack(team, id, REVOKED);
    case Removal(user) => RemovedOne(team, user);
    case RoleChange(actor, user, role) => RoleChangedOnly(team, actor, user, role);
  }

  /** Over every run, however addresses are spelled: the seats are never exceeded and no address has two pending invites. */
  lemma {:induction false} RunKeepsSeats(team: Team, events: seq<Event>, limit: Option<nat>, accounts: Accounts)
    requires OneInviteEach(team) && SeatsOk(team, limit)
    ensures OneInviteEach(Run(team, events, limit, accounts)) && SeatsOk(Run(team, events, limit, accounts), limit)
  {
    if events != [] {
      RunKeepsSeats(team, events[..|events| - 1], limit, accounts);
      EventKeepsEach(Run(team, events[..|events| - 1], limit, accounts), events[|events| - 1], limit, accounts);
      EventKeepsSeats(Run(team, events[..|events| - 1], limit, accounts), events[|events| - 1], limit, accounts);
    }
  }

  // ---------------------------------------------------------------- exactly when an owner always remains

  /** A new workspace satisfies the invariant on every plan with a seat. */
  lemma NewWorkspace(owner: string, limit: Option<nat>, accounts: Accounts, addresses: iset<string>)
    requires limit.Some? ==> limit.value >= 1
    ensures Inv(NewTeam(owner), limit, accounts, addresses)
  {
    assert ActiveMembers(NewTeam(owner)) == {owner} && ActiveOwners(NewTeam(owner)) == {owner} && PendingInvites(NewTeam(owner)) == {};
  }

  /** Inviting the sole owner under a different spelling and accepting it leaves the workspace without an owner. */
  lemma CaseDifferenceRemovesLastOwner(owner: string, email: string, limit: Option<nat>, accounts: Accounts)
    requires accounts(owner) != email && Lower(accounts(owner)) == Lower(email) && SeatToInvite(limit)
    ensures ActiveOwners(Run(NewTeam(owner), [Invitation(email, Some(VIEWER), false, 0), Acceptance(0, owner, 0)], limit, accounts)) == {}
  {
    var team, events := NewTeam(owner), [Invitation(email, Some(VIEWER), false, 0), Acceptance(0, owner, 0)];
    assert events[..1] == [events[0]] && [events[0]][..0] == [];
    assert !ActiveWithEmail(team, email, accounts) && !PendingFor(team, email);
    assert ActiveMembers(team) == {owner} && PendingInvites(team) == {};
    assert Run(team, [], limit, accounts) == team;
    var invited := Run(team, [events[0]], limit, accounts);
    assert invited == Team(team.members, map[0 := Invite(email, VIEWER, PENDING, INVITE_EXPIRY_MS)], 1);
    assert Run(team, events, limit, accounts) == Joined(invited, 0, owner);
  }

  /** The plan has room for somebody besides the owner. */
  predicate SeatToInvite(limit: Option<nat>) {
    limit.Some? ==> limit.value >= 2
  }

  /** On a plan for one, nobody is ever invited. */
  lemma {:induction false} AloneStaysOwner(owner: string, events: seq<Event>, limit: Option<nat>, accounts: Accounts)
    requires !SeatToInvite(limit)
    ensures var team := Run(NewTeam(owner), events, limit, accounts); ActiveOwners(team) != {} && team.invites == map[]
  {
    if events == [] {
      assert owner in ActiveOwners(NewTeam(owner));
    } else {
      var before := Run(NewTeam(owner), events[..|events| - 1], limit, accounts);
      AloneStaysOwner(owner, events[..|events| - 1], limit, accounts);
      AloneStep(before, events[|events| - 1], limit, accounts);
    }
  }

  lemma AloneStep(team: Team, e: Event, limit: Option<nat>, accounts: Accounts)
    requires !SeatToInvite(limit) && ActiveOwners(team) != {} && team.invites == map[]
    ensures var after := Handle(team, e, limit, accounts).team; ActiveOwners(after) != {} && after.invites == map[]
  {
    match e
    case Invitation(_, _, _, _) =>
      assert ActiveOwners(team) <= ActiveMembers(team);
      SubsetSize(ActiveOwners(team), ActiveMembers(team));
    case Acceptance(_, _, _) =>
    case Rejection(_) =>
    case Cancellation(_) =>
    case Removal(user) => RemovedOne(team, user);
    case RoleChange(actor, user, role) => RoleChangedOnly(team, actor, user, role);
  }

  ghost predicate KeepsOwner(owner: string, events: seq<Event>, limit: Option<nat>, accounts: Accounts) {
    ActiveOwners(Run(NewTeam(owner), events, limit, accounts)) != {}
  }

  ghost predicate AlwaysOwned(limit: Option<nat>, accounts: Accounts, addresses: iset<string>) {
    forall owner: string, events: seq<Event> :: InvitesGoTo(events, addresses) ==> KeepsOwner(owner, events, limit, accounts)
  }

  /**
   * Every run of every new workspace keeps an active owner if and only if each
   * account that can accept an invitation to one of the invited addresses has that
   * very address, or the plan has no seat to invite to.
   */
  lemma OwnerRemainsIff(limit: Option<nat>, accounts: Accounts, addresses: iset<string>)
    ensures AlwaysOwned(limit, accounts, addresses) <==> Spelled(accounts, addresses) || !SeatToInvite(limit)
  {
    if Spelled(accounts, addresses) || !SeatToInvite(limit) {
      forall owner, events | InvitesGoTo(events, addresses) ensures KeepsOwner(owner, events, limit, accounts) {
        if SeatToInvite(limit) {
          NewWorkspace(owner, limit, accounts, addresses);
          RunKeepsInv(NewTeam(owner), events, limit, accounts, addresses);
        } else {
          AloneStaysOwner(owner, events, limit, accounts);
        }
      }
    } else {
      var e, u: string :| e in addresses && Lower(e) == Lower(accounts(u)) && e != accounts(u);
      CaseDifferenceRemovesLastOwner(u, e, limit, accounts);
      var events := [Invitation(e, Some(VIEWER), false, 0), Acceptance(0, u, 0)];
      assert InvitesGoTo(events, addresses) && !KeepsOwner(u, events, limit, accounts);
    }
  }
}
