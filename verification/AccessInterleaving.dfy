/**
 What interleaved service operations can and cannot do to sessions and links: the store steps of
 AccessService in any order, with anything in between.

 Main results: a revoked session is refused for ever, so revoking an access or making a new link ends
 every session that was open then (RevokedIsRefused, OldSessionsEnd); a claimed invitation cannot be
 claimed again by any token, and a withdrawn one admits nobody, until it is given a new link
 (ClaimedUntilNewLink, WithdrawnUntilNewLink, LateLinkAdmitsIff); a session that a late
 sign-in opens while a new link is being made is accepted again after the same account signs in with
 the new link exactly when that sign-in does not itself replace it (LateSessionAcceptedIff). The three
 races of the code are shown on runs from the empty store (StaleLimitOvershoots, LateSessionSurvives,
 RevocationIsOverwritten).
 */
module AccessInterleaving {
  import opened Common
  import opened AccessStore
  import opened AccessService

  // ---------------------------------------------------------------- revoked for ever

  /** Nothing but its activity times and its revocation ever changes in a session. */
  ghost predicate Evolved(before: Session, after: Session) {
    && before
       == after.(lastActivity := before.lastActivity, idleExpires := before.idleExpires, revoked := before.revoked)
    && (before.revoked ==> after.revoked)
  }

  lemma StepEvolves(s: State, step: Step, k: nat)
    requires k < |s.sessions|
    ensures k < |Apply(s, step).sessions| && Evolved(s.sessions[k], Apply(s, step).sessions[k])
  {
    hide Replaced, Surplus;
  }

  lemma {:induction false} StepsEvolve(s: State, steps: seq<Step>, k: nat)
    requires k < |s.sessions|
    ensures k < |ApplyAll(s, steps).sessions| && Evolved(s.sessions[k], ApplyAll(s, steps).sessions[k])
    decreases |steps|
  {
    hide Apply;
    if steps != [] {
      StepEvolves(s, steps[0], k);
      StepsEvolve(Apply(s, steps[0]), steps[1..], k);
    }
  }

  /** Whatever happens, a revoked session stays revoked and is refused at any time. */
  lemma RevokedIsRefused(settings: Settings, s: State, steps: seq<Step>, k: nat, now: int)
    requires k < |s.sessions| && s.sessions[k].revoked
    ensures var after := ApplyAll(s, steps);
            k < |after.sessions| && after.sessions[k].revoked && ValidateSteps(settings, after, now, k) == []
  {
    StepsEvolve(s, steps, k);
  }

  /** Ending the sessions of an invitation ends each for good, whatever follows. */
  lemma EndedSessionIsRefused(settings: Settings, s: State, id: nat, steps: seq<Step>, k: nat, now: int)
    requires k < |s.sessions| && s.sessions[k].invitation == id
    ensures var after := ApplyAll(Apply(s, End(id)), steps);
            k < |after.sessions| && after.sessions[k].revoked && ValidateSteps(settings, after, now, k) == []
  {
    RevokedIsRefused(settings, Apply(s, End(id)), steps, k, now);
  }

  /** The operations that end sessions. */
  predicate EndsSessions(op: Op, id: nat) {
    op == RevokeAccess(id) || op == EndSessions(id) || op == DeleteAccess(id) || (op.RegenerateLink? && op.id == id)
  }

  /** Revoking or deleting an access, ending its sessions and making a new link all end every session of
      the invitation: whatever steps of whatever operations follow, none of them is accepted again. */
  lemma OldSessionsEnd(settings: Settings, s: State, now: int, id: nat, op: Op, steps: seq<Step>, k: nat, later: int)
    requires k < |s.sessions| && s.sessions[k].invitation == id
    requires EndsSessions(op, id) && Steps(settings, s, now, op) != []
    ensures var after := ApplyAll(ApplyAll(s, Steps(settings, s, now, op)), steps);
            k < |after.sessions| && after.sessions[k].revoked && ValidateSteps(settings, after, later, k) == []
  {
    hide Apply, ValidateSteps;
    if op.RevokeAccess? {
      WithdrawKeepsSessions(s, id);
      TwoSteps(s, Withdraw(id), End(id));
      EndedSessionIsRefused(settings, Apply(s, Withdraw(id)), id, steps, k, later);
    } else if op.EndSessions? {
      OneStep(s, End(id));
      EndedSessionIsRefused(settings, s, id, steps, k, later);
    } else {
      var second := if op.DeleteAccess? then Delete(id) else Regenerate(id, now + op.duration);
      TwoSteps(s, End(id), second);
      assert ([second] + steps)[1..] == steps;
      EndedSessionIsRefused(settings, s, id, [second] + steps, k, later);
    }
  }

  lemma WithdrawKeepsSessions(s: State, id: nat)
    ensures Apply(s, Withdraw(id)).sessions == s.sessions
  {
  }

  // ---------------------------------------------------------------- claimed until a new link

  /** The invitation is gone, or is not waiting to be claimed. */
  ghost predicate NotPending(s: State, id: nat) {
    id < s.nextInvitation && (id in s.invitations ==> s.invitations[id].status != Pending)
  }

  lemma StepKeepsClaimed(s: State, step: Step, id: nat)
    requires NotPending(s, id) && !(step.Regenerate? && step.id == id)
    ensures NotPending(Apply(s, step), id)
  {
    hide CreateLimited, Trim, Terminate;
  }

  lemma {:induction false} StepsKeepClaimed(s: State, steps: seq<Step>, id: nat)
    requires NotPending(s, id) && forall i :: 0 <= i < |steps| ==> !(steps[i].Regenerate? && steps[i].id == id)
    ensures NotPending(ApplyAll(s, steps), id)
    decreases |steps|
  {
    hide Apply, NotPending;
    if steps != [] {
      StepKeepsClaimed(s, steps[0], id);
      StepsKeepClaimed(Apply(s, steps[0]), steps[1..], id);
    }
  }

  /** After a successful claim no token claims the invitation, whatever happens, until a new link is
      made for it. */
  lemma ClaimedUntilNewLink(s: State, first: Step, between: seq<Step>, token: nat, now: int)
    requires TokenInv(s) && first.TryClaim? && Claimable(s.invitations, first.id, first.token, first.now)
    requires forall i :: 0 <= i < |between| ==> !(between[i].Regenerate? && between[i].id == first.id)
    ensures !Claimable(ApplyAll(Apply(s, first), between).invitations, first.id, token, now)
  {
    StepsKeepClaimed(Apply(s, first), between, first.id);
  }

  // ---------------------------------------------------------------- withdrawn until a new link

  /** The invitation is gone, or withdrawn. */
  ghost predicate Withdrawn(s: State, id: nat) {
    id < s.nextInvitation && (id in s.invitations ==> s.invitations[id].status == Revoked)
  }

  lemma StepKeepsWithdrawn(s: State, step: Step, id: nat)
    requires Withdrawn(s, id) && !(step.Regenerate? && step.id == id)
    ensures Withdrawn(Apply(s, step), id)
  {
    hide CreateLimited, Trim, Terminate;
  }

  lemma {:induction false} StepsKeepWithdrawn(s: State, steps: seq<Step>, id: nat)
    requires Withdrawn(s, id) && forall i :: 0 <= i < |steps| ==> !(steps[i].Regenerate? && steps[i].id == id)
    ensures Withdrawn(ApplyAll(s, steps), id)
    decreases |steps|
  {
    hide Apply, Withdrawn;
    if steps != [] {
      StepKeepsWithdrawn(s, steps[0], id);
      StepsKeepWithdrawn(Apply(s, steps[0]), steps[1..], id);
    }
  }

  /** The state after an access was withdrawn and whatever followed. */
  function AfterWithdrawal(s: State, id: nat, between: seq<Step>): State {
    ApplyAll(Apply(s, Withdraw(id)), between)
  }

  /** A withdrawn access stays withdrawn, whatever happens, until a new link is stored for it: nobody signs
      in with it and none of its sessions is accepted. */
  lemma WithdrawnUntilNewLink(settings: Settings, s: State, id: nat, between: seq<Step>, op: Op, k: nat, now: int)
    requires id < s.nextInvitation && op.SignIn? && op.id == id
    requires forall i :: 0 <= i < |between| ==> !(between[i].Regenerate? && between[i].id == id)
    ensures var after := AfterWithdrawal(s, id, between);
            && SignInSteps(settings, after, now, op) == []
            && (k < |after.sessions| && after.sessions[k].invitation == id ==> !Accepts(settings, after, now, k))
  {
    StepsKeepWithdrawn(Apply(s, Withdraw(id)), between, id);
  }

  /** An operation that makes a new link and read the access before it was withdrawn takes its steps after
      it: the access admits again exactly the invited account with the new link, unless the operation had
      been refused, the link has expired or the access was deleted meanwhile. An operation that reads the
      access after the withdrawal is refused. */
  lemma LateLinkAdmitsIff(settings: Settings, s: State, id: nat, decided: int, duration: int, between: seq<Step>,
                          now: int, token: nat, subject: int, email: int)
    requires id < s.nextInvitation
    requires forall i :: 0 <= i < |between| ==> !(between[i].Regenerate? && between[i].id == id)
    ensures var late := Steps(settings, s, decided, RegenerateLink(id, duration));
            var before := AfterWithdrawal(s, id, between);
            var after := ApplyAll(before, late);
            && ((id in after.invitations && Admits(after.invitations[id], now, Some(token), subject, email)) <==>
                late != [] && id in before.invitations && before.invitations[id].email == Some(email)
                && token == before.nextToken && now < decided + duration)
            && Steps(settings, before, decided, RegenerateLink(id, duration)) == []
  {
    hide ApplyAll, Terminate;
    var before := AfterWithdrawal(s, id, between);
    assert Withdrawn(before, id) by { StepsKeepWithdrawn(Apply(s, Withdraw(id)), between, id); }
    hide AfterWithdrawal;
    NoStep(before);
    TwoSteps(before, End(id), Regenerate(id, decided + duration));
  }

  // ---------------------------------------------------------------- a sign-in while a link is remade

  /** The state in which a new link has been made, with anything in between its two steps. */
  function Relinked(s: State, id: nat, between: seq<Step>, until: int): State {
    Apply(ApplyAll(Apply(s, End(id)), between), Regenerate(id, until))
  }

  /** The session is the account's, with the invitation's role, and neither revoked nor expired. */
  predicate Usable(s: State, id: nat, subject: int, email: int, now: int, k: nat)
    requires k < |s.sessions| && id in s.invitations
  {
    var session := s.sessions[k];
    && session.invitation == id && session.subject == subject && session.email == email
    && session.role == s.invitations[id].role && session.Active(now) && session.idleExpires > now
  }

  /** The invited account signs in with the new link. */
  function WithNewLink(settings: Settings, s: State, id: nat, now: int, subject: int, email: int): State
    requires id in s.invitations
  {
    ApplyAll(s, SignInSteps(settings, s, now, SignIn(id, Some(s.invitations[id].token), subject, email)))
  }

  lemma NewLinkSignsIn(settings: Settings, s: State, id: nat, now: int, subject: int, email: int)
    requires id in s.invitations && s.invitations[id].status == Pending
    requires s.invitations[id].email == Some(email) && now < s.invitations[id].expires
    ensures var i := s.invitations[id]; var after := WithNewLink(settings, s, id, now, subject, email);
            && after.invitations == Claim(s.invitations, id, i.token, now, subject, email, s.nextToken)
            && after.sessions
               == CreateLimited(s.sessions, NewSession(settings, id, i, subject, email, now), i.Limit(), now)
  {
    hide CreateLimited, NewSession;
    var i := s.invitations[id];
    var open := Open(NewSession(settings, id, i, subject, email, now), i.Limit(), now);
    TwoSteps(s, TryClaim(id, i.token, now, subject, email), open);
  }

  /** A session opened before the new link is accepted after the invited account has signed in with it
      if and only if it is usable and that sign-in did not replace it; and it is then one that was
      opened between the two steps of making the link. */
  lemma LateSessionAcceptedIff(settings: Settings, s: State, id: nat, between: seq<Step>, until: int, now: int,
                               subject: int, email: int, k: nat)
    requires var r := Relinked(s, id, between, until);
             && id in r.invitations && r.invitations[id].email == Some(email) && now < until
             && k < |r.sessions| && r.sessions[k].invitation == id
    ensures var r := Relinked(s, id, between, until);
            Accepts(settings, WithNewLink(settings, r, id, now, subject, email), now, k) <==>
              Usable(r, id, subject, email, now, k) && k !in Replaced(r.sessions, id, r.invitations[id].Limit(), now)
    ensures !Relinked(s, id, between, until).sessions[k].revoked ==> |s.sessions| <= k
  {
    var r := Relinked(s, id, between, until);
    RelinkedIsPending(s, id, between, until);
    LateSessionIsNew(s, id, between, until, k);
    hide Relinked;
    SignedInAccepts(settings, r, id, now, subject, email, k);
  }

  lemma RelinkedIsPending(s: State, id: nat, between: seq<Step>, until: int)
    ensures var r := Relinked(s, id, between, until);
            id in r.invitations ==> r.invitations[id].status == Pending && r.invitations[id].expires == until
  {
    hide ApplyAll;
  }

  lemma LateSessionIsNew(s: State, id: nat, between: seq<Step>, until: int, k: nat)
    requires k < |Relinked(s, id, between, until).sessions|
    ensures var r := Relinked(s, id, between, until);
            r.sessions[k].invitation == id && !r.sessions[k].revoked ==> |s.sessions| <= k
  {
    if k < |s.sessions| {
      StepEvolves(s, End(id), k);
      StepsEvolve(Apply(s, End(id)), between, k);
    }
  }

  lemma SignedInAccepts(settings: Settings, r: State, id: nat, now: int, subject: int, email: int, k: nat)
    requires id in r.invitations && r.invitations[id].status == Pending && now < r.invitations[id].expires
    requires r.invitations[id].email == Some(email) && k < |r.sessions| && r.sessions[k].invitation == id
    ensures Accepts(settings, WithNewLink(settings, r, id, now, subject, email), now, k) <==>
              Usable(r, id, subject, email, now, k) && k !in Replaced(r.sessions, id, r.invitations[id].Limit(), now)
  {
    NewLinkSignsIn(settings, r, id, now, subject, email);
    var after := WithNewLink(settings, r, id, now, subject, email);
    hide WithNewLink, Replaced, Accepts;
    ValidateAcceptsIff(settings, after, now, k);
  }

  /** The only active session is left alone exactly when the limit admits a second one. */
  lemma OnlySessionIsReplacedIff(sessions: Sessions, id: nat, limit: nat, now: int, k: nat)
    requires limit >= 1 && ActiveIds(sessions, id, now) == {k}
    ensures k in Replaced(sessions, id, limit, now) <==> limit == 1
  {
    var active := Active(sessions, id, now, false);
    assert |active| == 1;
    assert active[0] in multiset(active);
    assert active == [k];
  }

  // ---------------------------------------------------------------- the races on real runs

  /** A viewer's invitation for two sessions is made and claimed, all at time zero. */
  function Invited(settings: Settings): State {
    ApplyAll(INITIAL, Steps(settings, INITIAL, 0, Invite(7, Viewer, 2, 100)))
  }

  function SignedIn(settings: Settings): State {
    ApplyAll(Invited(settings), Steps(settings, Invited(settings), 0, SignIn(0, Some(0), 5, 7)))
  }

  const PENDING: Invitation := Invitation(Some(7), Viewer, 2, 0, 1, Pending, 100, None, None)
  const CLAIMED: Invitation := Invitation(Some(7), Viewer, 2, 1, 1, Claimed, 100, Some(5), Some(7))

  /** The session every sign-in of the account opens at time zero. */
  function Opened(settings: Settings): Session { NewSession(settings, 0, CLAIMED, 5, 7, 0) }

  predicate Lasting(settings: Settings) {
    settings.absolute(Viewer) > 0 && settings.idle(Viewer) > 0
  }

  lemma InvitedIs(settings: Settings)
    ensures Invited(settings) == State(map[0 := PENDING], [], 1, 1, {0}, [])
  {
    OneStep(INITIAL, Issue(7, Viewer, 2, 100));
  }

  lemma SignedInIs(settings: Settings)
    ensures SignedIn(settings) == State(map[0 := CLAIMED], [Opened(settings)], 1, 2, {0}, [0])
  {
    InvitedIs(settings);
    var s := Invited(settings);
    hide Invited, CreateLimited;
    var open := Open(NewSession(settings, 0, PENDING, 5, 7, 0), 2, 0);
    assert Steps(settings, s, 0, SignIn(0, Some(0), 5, 7)) == [TryClaim(0, 0, 0, 5, 7), open];
    TwoSteps(s, TryClaim(0, 0, 0, 5, 7), open);
    FirstSession(NewSession(settings, 0, PENDING, 5, 7, 0), 2, 0);
  }

  lemma FirstSession(document: Session, limit: nat, now: int)
    requires limit >= 1
    ensures CreateLimited([], document, limit, now) == [document]
  {
    NoneToReplace([], document, limit, now);
    hide CreateLimited;
    assert [] + [document] == [document];
  }

  /** The steps of another sign-in of the account that has read the invitation now. */
  lemma NextSignInIs(settings: Settings)
    ensures SignInSteps(settings, SignedIn(settings), 0, SignIn(0, None, 5, 7)) == [Open(Opened(settings), 2, 0)]
  {
    SignedInIs(settings);
  }

  /** A second sign-in reads the limit 2; an administrator lowers it to 1, which revokes nothing; the
      second sign-in opens its session beside the first. */
  lemma StaleLimitOvershoots(settings: Settings)
    requires Lasting(settings)
    ensures var s := SignedIn(settings);
            var late := SignInSteps(settings, s, 0, SignIn(0, None, 5, 7));
            var lowered := ApplyAll(s, Steps(settings, s, 0, UpdateAccess(0, None, Some(1))));
            var end := ApplyAll(lowered, late);
            && LimitInv(s, 0) && LimitInv(lowered, 0)
            && 0 in end.invitations && end.invitations[0].Limit() == 1 && ActiveCount(end, 0, 0) == 2
  {
    var s := SignedIn(settings);
    SignedInIs(settings);
    NextSignInIs(settings);
    InvitedIs(settings);
    hide SignedIn, Invited, CreateLimited, Trim, LimitInv, NewSession;
    OneActive(settings);
    OpKeepsLimit(settings, s, 0, UpdateAccess(0, None, Some(1)));
    var updated := Apply(s, Update(0, None, Some(1)));
    var lowered := Apply(updated, Cut(0, 1, 0));
    TwoSteps(s, Update(0, None, Some(1)), Cut(0, 1, 0));
    TrimCounts(s.sessions, 0, 1, 0);
    OneStep(lowered, Open(Opened(settings), 2, 0));
    OpenedIsActive(settings);
    CreateLimitedCounts(lowered.sessions, Opened(settings), 2, 0);
  }

  lemma OpenedIsActive(settings: Settings)
    requires Lasting(settings)
    ensures var d := Opened(settings);
            d.invitation == 0 && d.Active(0) && d.idleExpires > 0 && d.role == Viewer && d.subject == 5 && d.email == 7
  {
  }

  lemma OneActive(settings: Settings)
    requires Lasting(settings)
    ensures LimitInv(SignedIn(settings), 0) && ActiveIds([Opened(settings)], 0, 0) == {0}
  {
    SignedInIs(settings);
    OpenedIsActive(settings);
    hide SignedIn, NewSession, Opened;
    var s := SignedIn(settings);
    assert ActiveIds(s.sessions, 0, 0) == {0};
    forall id: nat
      ensures WithinLimit(s, id, 0)
    {
    }
  }

  /** On a real run: the steps of making a new link are decided, the access is revoked, and the steps are
      then taken. Decided afterwards there would be none; so taken, the account can sign in again. */
  lemma RevocationIsOverwritten(settings: Settings)
    ensures var s := SignedIn(settings);
            var late := Steps(settings, s, 0, RegenerateLink(0, 100));
            var revoked := ApplyAll(s, Steps(settings, s, 0, RevokeAccess(0)));
            && Steps(settings, revoked, 0, RegenerateLink(0, 100)) == []
            && SignInSteps(settings, ApplyAll(revoked, late), 0, SignIn(0, Some(2), 5, 7)) != []
  {
    var s := SignedIn(settings);
    SignedInIs(settings);
    hide SignedIn, Terminate, NewSession, ApplyAll, Opened;
    var revoked := Apply(Apply(s, Withdraw(0)), End(0));
    TwoSteps(s, Withdraw(0), End(0));
    TwoSteps(revoked, End(0), Regenerate(0, 100));
  }

  const RELINKED: Invitation := Invitation(Some(7), Viewer, 2, 2, 2, Pending, 100, None, None)

  lemma RelinkedIs(settings: Settings)
    ensures var d := Opened(settings);
            Relinked(SignedIn(settings), 0, [Open(d, 2, 0)], 100)
              == State(map[0 := RELINKED], [d.(revoked := true), d], 1, 3, {0, 2}, [0])
  {
    var s := SignedIn(settings);
    SignedInIs(settings);
    hide SignedIn, NewSession, CreateLimited, Terminate;
    var d := Opened(settings);
    assert d.invitation == 0 by { OpenedIsForZero(settings); }
    SecondAfterEnd(d);
    OneStep(Apply(s, End(0)), Open(d, 2, 0));
  }

  lemma OpenedIsForZero(settings: Settings)
    ensures Opened(settings).invitation == 0
  {
  }

  /** A second sign-in reads the claimed invitation; an administrator makes a new link, and between
      ending the sessions and storing the link the sign-in opens its session; the account then signs in
      with the new link: the first session is refused, the late one is accepted. */
  lemma LateSessionSurvives(settings: Settings)
    requires Lasting(settings)
    ensures var s := SignedIn(settings);
            var late := SignInSteps(settings, s, 0, SignIn(0, None, 5, 7));
            var relinked := Relinked(s, 0, late, 100);
            && Steps(settings, s, 0, RegenerateLink(0, 100)) == [End(0), Regenerate(0, 100)]
            && 0 in relinked.invitations
            && var end := WithNewLink(settings, relinked, 0, 0, 5, 7);
               !Accepts(settings, end, 0, 0) && Accepts(settings, end, 0, 1)
  {
    var s := SignedIn(settings);
    SignedInIs(settings);
    NextSignInIs(settings);
    OpenedIsActive(settings);
    RelinkedIs(settings);
    hide SignedIn, NewSession, Opened, CreateLimited, WithNewLink, Accepts, Relinked, Replaced;
    var d := Opened(settings);
    var relinked := Relinked(s, 0, [Open(d, 2, 0)], 100);
    assert ActiveIds(relinked.sessions, 0, 0) == {1};
    OnlySessionIsReplacedIff(relinked.sessions, 0, 2, 0, 1);
    LateSessionAcceptedIff(settings, s, 0, [Open(d, 2, 0)], 100, 0, 5, 7, 0);
    LateSessionAcceptedIff(settings, s, 0, [Open(d, 2, 0)], 100, 0, 5, 7, 1);
  }

  lemma SecondAfterEnd(d: Session)
    requires d.invitation == 0
    ensures Terminate([d], 0) == [d.(revoked := true)]
    ensures CreateLimited([d.(revoked := true)], d, 2, 0) == [d.(revoked := true), d]
  {
    var gone := [d.(revoked := true)];
    NoneToReplace(gone, d, 2, 0);
    hide CreateLimited;
    assert Terminate([], 0) == [];
    assert [d][..0] == [];
  }

  /** Where nothing is active a new session replaces nothing. */
  lemma NoneToReplace(sessions: Sessions, document: Session, limit: nat, now: int)
    requires limit >= 1 && forall k :: 0 <= k < |sessions| ==> sessions[k].revoked
    ensures CreateLimited(sessions, document, limit, now) == sessions + [document]
  {
    hide SortByCreation, ActiveList, Session.Active;
    assert ActiveIds(sessions, document.invitation, now) == {} by {
      assert forall k: nat :: k < |sessions| ==> !sessions[k].Active(now) by { RevokedIsInactive(sessions, now); }
      hide ActiveIds;
    }
    assert Replaced(sessions, document.invitation, limit, now) == [];
  }

  lemma RevokedIsInactive(sessions: Sessions, now: int)
    requires forall k :: 0 <= k < |sessions| ==> sessions[k].revoked
    ensures forall k: nat :: k < |sessions| ==> !sessions[k].Active(now)
  {
  }
}
