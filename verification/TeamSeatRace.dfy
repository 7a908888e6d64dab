/**
 * Acceptances of invitations by any number of callers. The invite is read again
 * inside the transaction that seats the user, but under no lock, so other calls may
 * close it in between and use its seat.
 */
module TeamSeatRace {
  import opened Common
  import opened TeamSeats

  /** An acceptance past its reads. */
  datatype Joining = Joining(id: nat, user: string)

  datatype State = State(team: Team, joins: map<nat, Joining>)

  /** The reads of an acceptance count as one: only an invite's status ever changes. */
  datatype Action = Read(caller: nat, id: nat, user: string, now: int) | Write(caller: nat) | Other(e: Event)

  /** A failing read stores the expiry it found; the other operations hold the lock or write once. */
  function Next(s: State, a: Action, limit: Option<nat>, accounts: Accounts): State {
    match a
    case Read(caller, id, user, now) =>
      var out := Accepted(s.team, id, user, now, accounts);
      if caller in s.joins then s
      else if out.error.None? then s.(joins := s.joins[caller := Joining(id, user)])
      else s.(team := out.team)
    case Write(caller) =>
      if caller !in s.joins || s.joins[caller].id !in s.team.invites then s
      else State(Joined(s.team, s.joins[caller].id, s.joins[caller].user), s.joins - {caller})
    case Other(e) => if e.Acceptance? then s else s.(team := Handle(s.team, e, limit, accounts).team)
  }

  function Run(s: State, actions: seq<Action>, limit: Option<nat>, accounts: Accounts): State
    decreases |actions|
  {
    if actions == [] then s else Run(Next(s, actions[0], limit, accounts), actions[1..], limit, accounts)
  }

  /** Ids are issued in order, and every acceptance in flight has found its invite. */
  predicate Inv(s: State) {
    IdsIssued(s.team) && forall c :: c in s.joins ==> s.joins[c].id in s.team.invites
  }

  lemma EventKeepsIds(team: Team, e: Event, limit: Option<nat>, accounts: Accounts)
    requires IdsIssued(team)
    ensures IdsIssued(Handle(team, e, limit, accounts).team) && team.invites.Keys <= Handle(team, e, limit, accounts).team.invites.Keys
  {
  }

  lemma StepKeepsInv(s: State, a: Action, limit: Option<nat>, accounts: Accounts)
    requires Inv(s)
    ensures Inv(Next(s, a, limit, accounts))
  {
    match a
    case Read(_, _, _, _) =>
    case Write(_) =>
    case Other(e) => EventKeepsIds(s.team, e, limit, accounts);
  }

  // ---------------------------------------------------------------- seats and stale acceptances

  /** The write takes a seat for a new member and gives the invite's seat back if it still has one. */
  lemma WriteMovesSeats(s: State, c: nat, limit: Option<nat>, accounts: Accounts)
    requires Inv(s) && c in s.joins
    ensures var t := Next(s, Write(c), limit, accounts);
            && ActiveMembers(t.team) == ActiveMembers(s.team) + {s.joins[c].user}
            && PendingInvites(t.team) == PendingInvites(s.team) - {s.joins[c].id}
            && SeatsUsed(t.team) == SeatsUsed(s.team) + (if s.joins[c].user in ActiveMembers(s.team) then 0 else 1)
                                    - (if s.joins[c].id in PendingInvites(s.team) then 1 else 0)
  {
    var id, user := s.joins[c].id, s.joins[c].user;
    JoiningAddsMember(s.team, id, user);
    JoiningClosesInvite(s.team, id, user);
    if user in ActiveMembers(s.team) { assert ActiveMembers(s.team) + {user} == ActiveMembers(s.team); }
    if id !in PendingInvites(s.team) { assert PendingInvites(s.team) - {id} == PendingInvites(s.team); }
  }

  /** Another acceptance of the same invite, for another user, is in flight. */
  predicate Rivalled(s: State, c: nat)
    requires c in s.joins
  {
    exists d :: d in s.joins && s.joins[d].id == s.joins[c].id && s.joins[d].user != s.joins[c].user
  }

  /** The acceptance is for somebody who is no member, and its invite has no seat to give or may lose it to another one. */
  predicate Stale(s: State, c: nat) {
    && c in s.joins && s.joins[c].user !in ActiveMembers(s.team)
    && (s.joins[c].id !in PendingInvites(s.team) || Rivalled(s, c))
  }

  predicate NoneStale(s: State) {
    forall c :: c in s.joins ==> !Stale(s, c)
  }

  /** Only writes of the acceptances in flight, and new invitations. */
  predicate NoReads(actions: seq<Action>) {
    forall i :: 0 <= i < |actions| ==> actions[i].Write? || (actions[i].Other? && actions[i].e.Invitation?)
  }

  ghost predicate Overfull(s: State, limit: Option<nat>) {
    limit.Some? && SeatsUsed(s.team) > limit.value
  }

  ghost predicate CanOverfill(s: State, limit: Option<nat>, accounts: Accounts) {
    exists more :: NoReads(more) && Overfull(Run(s, more, limit, accounts), limit)
  }

  lemma WriteKeepsFresh(s: State, c: nat, limit: Option<nat>, accounts: Accounts)
    requires Inv(s) && NoneStale(s) && SeatsOk(s.team, limit)
    ensures NoneStale(Next(s, Write(c), limit, accounts)) && SeatsOk(Next(s, Write(c), limit, accounts).team, limit)
  {
    if c in s.joins {
      var t := Next(s, Write(c), limit, accounts);
      WriteMovesSeats(s, c, limit, accounts);
      assert !Stale(s, c);
      forall d | d in t.joins ensures !Stale(t, d) {
        assert !Stale(s, d) && t.joins[d] == s.joins[d];
        if d in s.joins && s.joins[d].user !in ActiveMembers(t.team) { assert !Rivalled(s, d); StillFresh(s, t, c, d); }
      }
    }
  }

  lemma StillFresh(s: State, t: State, c: nat, d: nat)
    requires c in s.joins && d in s.joins && t.joins == s.joins - {c} && d in t.joins && !Rivalled(s, d)
    requires s.joins[d].id in PendingInvites(s.team) && s.joins[d].user != s.joins[c].user
    requires PendingInvites(t.team) == PendingInvites(s.team) - {s.joins[c].id}
    ensures !Stale(t, d)
  {
    assert s.joins[c].id != s.joins[d].id;
    assert forall k :: k in t.joins ==> k in s.joins && t.joins[k] == s.joins[k];
  }

  lemma InvitationKeepsFresh(s: State, e: Event, limit: Option<nat>, accounts: Accounts)
    requires Inv(s) && NoneStale(s) && SeatsOk(s.team, limit) && e.Invitation?
    ensures NoneStale(Next(s, Other(e), limit, accounts)) && SeatsOk(Next(s, Other(e), limit, accounts).team, limit)
  {
    var t := Next(s, Other(e), limit, accounts);
    EventKeepsSeats(s.team, e, limit, accounts);
    forall d | d in t.joins ensures !Stale(t, d) {
      assert !Stale(s, d);
      assert ActiveMembers(t.team) == ActiveMembers(s.team);
      assert s.joins[d].id in PendingInvites(s.team) ==> s.joins[d].id in PendingInvites(t.team);
      assert Rivalled(t, d) <==> Rivalled(s, d);
    }
  }

  lemma {:induction false} FreshStaysWithin(s: State, more: seq<Action>, limit: Option<nat>, accounts: Accounts)
    requires Inv(s) && NoneStale(s) && SeatsOk(s.team, limit) && NoReads(more)
    ensures SeatsOk(Run(s, more, limit, accounts).team, limit)
    decreases |more|
  {
    if more != [] {
      StepKeepsInv(s, more[0], limit, accounts);
      if more[0].Write? { WriteKeepsFresh(s, more[0].caller, limit, accounts); } else { InvitationKeepsFresh(s, more[0].e, limit, accounts); }
      FreshStaysWithin(Next(s, more[0], limit, accounts), more[1..], limit, accounts);
    }
  }

  // ---------------------------------------------------------------- a stale acceptance fills one seat too many

  /** There is always one more address: a longer one. */
  lemma {:induction false} NewAddress(used: set<string>) returns (e: string)
    ensures forall x :: x in used ==> |x| < |e|
    decreases used
  {
    if used == {} {
      e := "";
    } else {
      var x :| x in used;
      var longer := NewAddress(used - {x});
      e := if |longer| > |x| then longer else x + "x";
    }
  }

  function AddressesUsed(team: Team, accounts: Accounts): set<string> {
    (set i | i in team.invites :: team.invites[i].email) + (set u | u in team.members :: accounts(u))
  }

  /** While a seat is free, somebody can be invited. */
  lemma OneMoreInvited(s: State, limit: Option<nat>, accounts: Accounts) returns (e: Event)
    requires Inv(s) && limit.Some? && SeatsUsed(s.team) < limit.value
    ensures e.Invitation?
    ensures var t := Next(s, Other(e), limit, accounts);
            && t.joins == s.joins && SeatsUsed(t.team) == SeatsUsed(s.team) + 1 && ActiveMembers(t.team) == ActiveMembers(s.team)
            && (forall i :: i in s.team.invites ==> (i in PendingInvites(t.team) <==> i in PendingInvites(s.team)))
  {
    var email := NewAddress(AddressesUsed(s.team, accounts));
    assert !PendingFor(s.team, email) by { assert forall i :: i in s.team.invites ==> s.team.invites[i].email in AddressesUsed(s.team, accounts); }
    assert !ActiveWithEmail(s.team, email, accounts) by { assert forall u :: u in s.team.members ==> accounts(u) in AddressesUsed(s.team, accounts); }
    e := Invitation(email, Some(MEMBER), false, 0);
    InvitedOnce(s.team, email, Some(MEMBER), false, limit, 0, accounts);
  }

  /** The write of an acceptance whose invite is closed, for somebody who is no member. */
  predicate Seatless(s: State, c: nat) {
    c in s.joins && s.joins[c].user !in ActiveMembers(s.team) && s.joins[c].id !in PendingInvites(s.team)
  }

  lemma {:induction false} SeatlessOverfills(s: State, c: nat, limit: Option<nat>, accounts: Accounts)
    requires Inv(s) && limit.Some? && SeatsUsed(s.team) <= limit.value && Seatless(s, c)
    ensures CanOverfill(s, limit, accounts)
    decreases limit.value - SeatsUsed(s.team)
  {
    if SeatsUsed(s.team) == limit.value {
      WriteMovesSeats(s, c, limit, accounts);
      RunOne(s, Write(c), limit, accounts);
      assert NoReads([Write(c)]);
    } else {
      var e := OneMoreInvited(s, limit, accounts);
      StepKeepsInv(s, Other(e), limit, accounts);
      SeatlessOverfills(Next(s, Other(e), limit, accounts), c, limit, accounts);
      OverfillsFrom(s, Other(e), limit, accounts);
    }
  }

  lemma RunOne(s: State, a: Action, limit: Option<nat>, accounts: Accounts)
    ensures Run(s, [a], limit, accounts) == Next(s, a, limit, accounts)
  {
    assert [a][1..] == [] && Run(Next(s, a, limit, accounts), [], limit, accounts) == Next(s, a, limit, accounts);
  }

  lemma OverfillsFrom(s: State, a: Action, limit: Option<nat>, accounts: Accounts)
    requires NoReads([a]) && CanOverfill(Next(s, a, limit, accounts), limit, accounts)
    ensures CanOverfill(s, limit, accounts)
  {
    var more :| NoReads(more) && Overfull(Run(Next(s, a, limit, accounts), more, limit, accounts), limit);
    var actions := [a] + more;
    assert actions[1..] == more && NoReads(actions);
  }

  lemma StaleOverfills(s: State, c: nat, limit: Option<nat>, accounts: Accounts)
    requires Inv(s) && limit.Some? && SeatsUsed(s.team) <= limit.value && Stale(s, c)
    ensures CanOverfill(s, limit, accounts)
  {
    if Seatless(s, c) {
      SeatlessOverfills(s, c, limit, accounts);
    } else {
      var d :| d in s.joins && s.joins[d].id == s.joins[c].id && s.joins[d].user != s.joins[c].user;
      var t := Next(s, Write(d), limit, accounts);
      WriteMovesSeats(s, d, limit, accounts);
      StepKeepsInv(s, Write(d), limit, accounts);
      assert c in t.joins && t.joins[c] == s.joins[c];
      SeatlessOverfills(t, c, limit, accounts);
      assert NoReads([Write(d)]);
      OverfillsFrom(s, Write(d), limit, accounts);
    }
  }

  /**
   * The acceptances in flight, with invitations alone, can seat more than the plan
   * allows if and only if one of them is stale: its invite was closed since, or
   * another user is accepting it too, and its own user is no member yet.
   */
  lemma CanOverfillIff(s: State, limit: nat, accounts: Accounts)
    requires Inv(s) && SeatsUsed(s.team) <= limit
    ensures CanOverfill(s, Some(limit), accounts) <==> exists c :: Stale(s, c)
  {
    if NoneStale(s) {
      forall more | NoReads(more) ensures !Overfull(Run(s, more, Some(limit), accounts), Some(limit)) {
        FreshStaysWithin(s, more, Some(limit), accounts);
      }
    } else {
      var c :| c in s.joins && Stale(s, c);
      StaleOverfills(s, c, Some(limit), accounts);
    }
  }

  // ---------------------------------------------------------------- whole runs

  ghost predicate NeverStale(s: State, actions: seq<Action>, limit: Option<nat>, accounts: Accounts)
    decreases |actions|
  {
    NoneStale(s) && (actions != [] ==> NeverStale(Next(s, actions[0], limit, accounts), actions[1..], limit, accounts))
  }

  lemma StepKeepsSeats(s: State, a: Action, limit: Option<nat>, accounts: Accounts)
    requires Inv(s) && NoneStale(s) && SeatsOk(s.team, limit)
    ensures SeatsOk(Next(s, a, limit, accounts).team, limit)
  {
    match a
    case Read(_, id, user, now) => EventKeepsSeats(s.team, Acceptance(id, user, now), limit, accounts);
    case Write(c) => WriteKeepsFresh(s, c, limit, accounts);
    case Other(e) => EventKeepsSeats(s.team, e, limit, accounts);
  }

  /** Over every interleaving: as long as no acceptance in flight becomes stale, the seats are never exceeded. */
  lemma {:induction false} SeatsHold(s: State, actions: seq<Action>, limit: Option<nat>, accounts: Accounts)
    requires Inv(s) && SeatsOk(s.team, limit) && NeverStale(s, actions, limit, accounts)
    ensures SeatsOk(Run(s, actions, limit, accounts).team, limit)
    decreases |actions|
  {
    if actions != [] {
      StepKeepsInv(s, actions[0], limit, accounts);
      StepKeepsSeats(s, actions[0], limit, accounts);
      SeatsHold(Next(s, actions[0], limit, accounts), actions[1..], limit, accounts);
    }
  }

  /** Cancelling an invite under an acceptance for somebody who is no member makes it stale. */
  lemma CancellationOverfills(s: State, c: nat, limit: nat, accounts: Accounts)
    requires Inv(s) && SeatsUsed(s.team) <= limit && c in s.joins
    requires s.joins[c].user !in ActiveMembers(s.team) && s.joins[c].id in PendingInvites(s.team)
    ensures CanOverfill(Next(s, Other(Cancellation(s.joins[c].id)), Some(limit), accounts), Some(limit), accounts)
  {
    var t := Next(s, Other(Cancellation(s.joins[c].id)), Some(limit), accounts);
    ClosedGivesSeatBack(s.team, s.joins[c].id, REVOKED);
    StepKeepsInv(s, Other(Cancellation(s.joins[c].id)), Some(limit), accounts);
    assert ActiveMembers(t.team) == ActiveMembers(s.team);
    SeatlessOverfills(t, c, Some(limit), accounts);
  }

  lemma {:induction false} RunConcat(s: State, first: seq<Action>, second: seq<Action>, limit: Option<nat>, accounts: Accounts)
    ensures Run(s, first + second, limit, accounts) == Run(Run(s, first, limit, accounts), second, limit, accounts)
    decreases |first|
  {
    if first == [] {
      assert first + second == second;
    } else {
      assert (first + second)[1..] == first[1..] + second;
      RunConcat(Next(s, first[0], limit, accounts), first[1..], second, limit, accounts);
    }
  }

  /** A guest is invited and about to be seated when the invite is cancelled. */
  function CancelledUnderway(guest: string, accounts: Accounts): seq<Action> {
    [Other(Invitation(accounts(guest), Some(MEMBER), false, 0))] + ([Read(0, 0, guest, 0)] + [Other(Cancellation(0))])
  }

  lemma GuestUnderway(owner: string, guest: string, limit: nat, accounts: Accounts) returns (s: State)
    requires accounts(owner) != accounts(guest) && limit >= 2
    ensures s.joins == map[0 := Joining(0, guest)] && Inv(s) && SeatsUsed(s.team) == 2 && guest !in ActiveMembers(s.team) && 0 in PendingInvites(s.team)
    ensures Run(State(NewTeam(owner), map[]), CancelledUnderway(guest, accounts), Some(limit), accounts)
         == Next(s, Other(Cancellation(0)), Some(limit), accounts)
  {
    var start, invitation := State(NewTeam(owner), map[]), Invitation(accounts(guest), Some(MEMBER), false, 0);
    assert ActiveMembers(start.team) == {owner} && PendingInvites(start.team) == {};
    assert !ActiveWithEmail(start.team, accounts(guest), accounts) && !PendingFor(start.team, accounts(guest));
    InvitedOnce(start.team, accounts(guest), Some(MEMBER), false, Some(limit), 0, accounts);
    var invited := Next(start, Other(invitation), Some(limit), accounts);
    assert invited.team.invites == map[0 := Invite(accounts(guest), MEMBER, PENDING, INVITE_EXPIRY_MS)];
    s := Next(invited, Read(0, 0, guest, 0), Some(limit), accounts);
    RunConcat(start, [Other(invitation)], [Read(0, 0, guest, 0)] + [Other(Cancellation(0))], Some(limit), accounts);
    RunOne(start, Other(invitation), Some(limit), accounts);
    RunConcat(invited, [Read(0, 0, guest, 0)], [Other(Cancellation(0))], Some(limit), accounts);
    RunOne(invited, Read(0, 0, guest, 0), Some(limit), accounts);
    RunOne(s, Other(Cancellation(0)), Some(limit), accounts);
  }

  /** On every plan with a seat to invite to, a new workspace can come to use more seats than it has. */
  lemma SeatsCanOverflow(owner: string, guest: string, limit: nat, accounts: Accounts)
    requires accounts(owner) != accounts(guest) && limit >= 2
    ensures exists actions :: Overfull(Run(State(NewTeam(owner), map[]), actions, Some(limit), accounts), Some(limit))
  {
    var start, first := State(NewTeam(owner), map[]), CancelledUnderway(guest, accounts);
    var s := GuestUnderway(owner, guest, limit, accounts);
    CancellationOverfills(s, 0, limit, accounts);
    var more :| NoReads(more) && Overfull(Run(Next(s, Other(Cancellation(0)), Some(limit), accounts), more, Some(limit), accounts), Some(limit));
    RunConcat(start, first, more, Some(limit), accounts);
    assert Overfull(Run(start, first + more, Some(limit), accounts), Some(limit));
  }
}
