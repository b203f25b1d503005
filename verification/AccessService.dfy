/**
 The access service: the invitation and session lifecycle of auth/access_service.py over the store.

 Every service operation is a list of store steps; each step is atomic (it holds the store's lock),
 an operation is not. Main results: over every sequence of store steps, hence over every interleaving
 of operations, a generated link is claimed at most once (LinkClaimedAtMostOnce,
 SecondClaimantFails); over every sequence of operations in non-decreasing time no invitation has
 more active sessions than its limit (SessionsStayWithinLimit). Interleaved with a lowering of the
 limit, a sign-in that read the old limit keeps the new one exactly when the limit it read is not
 larger or a place is free (OpenKeepsLimitIff). What else interleaving can do is in AccessInterleaving.
 */
module AccessService {
  import opened Common
  import opened AccessStore

  /** The store, the supply of fresh identifiers and tokens, the tokens sent out as links, and the
      tokens of the successful claims in order. */
  datatype State = State(invitations: Invitations, sessions: Sessions, nextInvitation: nat, nextToken: nat,
    links: set<nat>, claims: seq<nat>)

  const INITIAL := State(map[], [], 0, 0, {}, [])

  datatype Step =
    | Issue(email: int, role: Role, maxActive: nat, issuedUntil: int)
    | Update(id: nat, newExpires: Option<int>, newLimit: Option<nat>)
    | Regenerate(id: nat, until: int)
    | Withdraw(id: nat)
    | Delete(id: nat)
    | TryClaim(id: nat, token: nat, now: int, subject: int, identityEmail: int)
    | Open(document: Session, limit: nat, now: int)
    | Cut(id: nat, limit: nat, now: int)
    | End(id: nat)
    | Touch(session: nat, lastActivity: int, idleExpires: int)
    | Close(session: nat)

  function Apply(s: State, step: Step): State {
    match step
    case Issue(email, role, maxActive, until) =>
      var document := Invitation(Some(email), role, maxActive, s.nextToken, 1, Pending, until, None, None);
      s.(invitations := s.invitations[s.nextInvitation := document], nextInvitation := s.nextInvitation + 1,
         nextToken := s.nextToken + 1, links := s.links + {s.nextToken})
    case Update(id, newExpires, newLimit) => Amend(s, id, Extend(newExpires, newLimit))
    case Regenerate(id, until) =>
      Amend(s, id, Relink(s.nextToken, until)).(nextToken := s.nextToken + 1, links := s.links + {s.nextToken})
    case Withdraw(id) => Amend(s, id, Revoke)
    case Delete(id) => s.(invitations := s.invitations - {id})
    case TryClaim(id, token, now, subject, email) =>
      if Claimable(s.invitations, id, token, now)
      then s.(invitations := Claim(s.invitations, id, token, now, subject, email, s.nextToken),
              nextToken := s.nextToken + 1, claims := s.claims + [token])
      else s
    case Open(document, limit, now) =>
      if limit >= 1 then s.(sessions := CreateLimited(s.sessions, document, limit, now)) else s
    case Cut(id, limit, now) => s.(sessions := Trim(s.sessions, id, limit, now))
    case End(id) => s.(sessions := Terminate(s.sessions, id))
    case Touch(k, lastActivity, idleExpires) =>
      if k < |s.sessions| && !s.sessions[k].revoked
      then s.(sessions := s.sessions[k := s.sessions[k].(lastActivity := lastActivity, idleExpires := idleExpires)])
      else s
    case Close(k) =>
      if k < |s.sessions| then s.(sessions := s.sessions[k := s.sessions[k].(revoked := true)]) else s
  }

  function Amend(s: State, id: nat, change: Change): State {
    if id in s.invitations then s.(invitations := s.invitations[id := Changed(s.invitations[id], change)]) else s
  }

  function ApplyAll(s: State, steps: seq<Step>): State
    decreases |steps|
  {
    if steps == [] then s else ApplyAll(Apply(s, steps[0]), steps[1..])
  }

  // ---------------------------------------------------------------- each link is claimed once

  ghost predicate TokenInv(s: State) {
    && (forall id :: id in s.invitations ==> id < s.nextInvitation && s.invitations[id].token < s.nextToken)
    && (forall id, other :: id in s.invitations && other in s.invitations && id != other ==>
          s.invitations[id].token != s.invitations[other].token)
    && (forall id :: id in s.invitations ==> s.invitations[id].token !in s.claims)
    && (forall id :: id in s.invitations && s.invitations[id].status == Pending ==> s.invitations[id].token in s.links)
    && (forall t :: t in s.links ==> t < s.nextToken)
    && (forall t :: t in s.claims ==> t in s.links)
    && (forall i, j :: 0 <= i < j < |s.claims| ==> s.claims[i] != s.claims[j])
  }

  lemma AmendKeepsTokens(s: State, id: nat, change: Change)
    requires TokenInv(s) && !change.Relink?
    ensures TokenInv(Amend(s, id, change))
  {
  }

  lemma RelinkKeepsTokens(s: State, id: nat, until: int)
    requires TokenInv(s)
    ensures TokenInv(Apply(s, Regenerate(id, until)))
  {
  }

  lemma IssueKeepsTokens(s: State, email: int, role: Role, maxActive: nat, until: int)
    requires TokenInv(s)
    ensures TokenInv(Apply(s, Issue(email, role, maxActive, until)))
  {
  }

  lemma ClaimKeepsTokens(s: State, id: nat, token: nat, now: int, subject: int, email: int)
    requires TokenInv(s)
    ensures TokenInv(Apply(s, TryClaim(id, token, now, subject, email)))
  {
  }

  lemma StepKeepsTokens(s: State, step: Step)
    requires TokenInv(s)
    ensures TokenInv(Apply(s, step)) && s.claims <= Apply(s, step).claims
  {
    match step
    case Issue(email, role, maxActive, until) => IssueKeepsTokens(s, email, role, maxActive, until);
    case Update(id, newExpires, newLimit) => AmendKeepsTokens(s, id, Extend(newExpires, newLimit));
    case Regenerate(id, until) => RelinkKeepsTokens(s, id, until);
    case Withdraw(id) => AmendKeepsTokens(s, id, Revoke);
    case TryClaim(id, token, now, subject, email) => ClaimKeepsTokens(s, id, token, now, subject, email);
    case Delete(_) =>
    case Open(_, _, _) =>
    case Cut(_, _, _) =>
    case End(_) =>
    case Touch(_, _, _) =>
    case Close(_) =>
  }

  lemma {:induction false} StepsKeepTokens(s: State, steps: seq<Step>)
    requires TokenInv(s)
    ensures TokenInv(ApplyAll(s, steps)) && s.claims <= ApplyAll(s, steps).claims
    decreases |steps|
  {
    hide TokenInv, Apply;
    if steps != [] {
      StepKeepsTokens(s, steps[0]);
      StepsKeepTokens(Apply(s, steps[0]), steps[1..]);
    }
  }

  /** In every interleaving each claimed token was sent out as a link, and none is claimed twice. */
  lemma LinkClaimedAtMostOnce(steps: seq<Step>)
    ensures var s := ApplyAll(INITIAL, steps);
            && (forall t :: t in s.claims ==> t in s.links)
            && forall i, j :: 0 <= i < j < |s.claims| ==> s.claims[i] != s.claims[j]
  {
    StepsKeepTokens(INITIAL, steps);
  }

  lemma {:induction false} StepsInTwo(s: State, a: seq<Step>, b: seq<Step>)
    ensures ApplyAll(s, a + b) == ApplyAll(ApplyAll(s, a), b)
    decreases |a|
  {
    hide Apply;
    if a == [] {
      assert a + b == b;
    } else {
      assert (a + b)[1..] == a[1..] + b;
      StepsInTwo(Apply(s, a[0]), a[1..], b);
    }
  }

  /** Once a claimant has the link, whatever happens in between, no claim with its token succeeds,
      on any invitation. */
  lemma SecondClaimantFails(before: seq<Step>, first: Step, between: seq<Step>, id: nat, now: int)
    requires first.TryClaim?
    requires Claimable(ApplyAll(INITIAL, before).invitations, first.id, first.token, first.now)
    ensures !Claimable(ApplyAll(INITIAL, before + [first] + between).invitations, id, first.token, now)
  {
    hide TokenInv;
    var s := ApplyAll(INITIAL, before);
    StepsInTwo(INITIAL, before + [first], between);
    StepsInTwo(INITIAL, before, [first]);
    var claimed := Apply(s, first);
    assert ApplyAll(s, [first]) == claimed;
    assert claimed.claims == s.claims + [first.token];
    assert claimed.claims[|s.claims|] == first.token;
    InitialTokens();
    StepsKeepTokens(INITIAL, before);
    StepKeepsTokens(s, first);
    StepsKeepTokens(claimed, between);
    var end := ApplyAll(claimed, between);
    assert first.token in end.claims;
    ClaimedTokenIsDead(end, id, first.token, now);
  }

  lemma InitialTokens()
    ensures TokenInv(INITIAL)
  {
  }

  lemma ClaimedTokenIsDead(s: State, id: nat, token: nat, now: int)
    requires TokenInv(s) && token in s.claims
    ensures !Claimable(s.invitations, id, token, now)
  {
  }

  /** A link that was replaced by a newer one is dead as well. */
  lemma RegeneratedLinkIsDead(s: State, id: nat, until: int, now: int)
    requires TokenInv(s) && id in s.invitations
    ensures var after := Apply(s, Regenerate(id, until));
            !Claimable(after.invitations, id, s.invitations[id].token, now)
            && (until > now ==> Claimable(after.invitations, id, s.nextToken, now))
  {
  }

  // ---------------------------------------------------------------- the service operations

  datatype Authorization = IsRevoked | IsLegacy | IsExpired | IsBlocked | IsClaimed | IsPending

  /** _authorization_status */
  function AuthorizationOf(i: Invitation, now: int): Authorization {
    if i.status == Revoked then IsRevoked
    else if i.status == Legacy || i.email.None? then IsLegacy
    else if i.expires <= now then IsExpired
    else if i.status == Blocked then IsBlocked
    else if i.status == Claimed && i.subject.Some? then IsClaimed
    else IsPending
  }

  /** The configured lifetimes of a role's sessions. */
  datatype Settings = Settings(absolute: Role -> int, idle: Role -> int)

  datatype Op =
    | Invite(email: int, role: Role, maxActive: nat, duration: int)
    | UpdateAccess(id: nat, newExpires: Option<int>, newLimit: Option<nat>)
    | RegenerateLink(id: nat, duration: int)
    | RevokeAccess(id: nat)
    | EndSessions(id: nat)
    | DeleteAccess(id: nat)
    | SignIn(id: nat, token: Option<nat>, subject: int, email: int)
    | Validate(session: nat)
    | SignOut(session: nat)

  function NewSession(settings: Settings, id: nat, i: Invitation, subject: int, email: int, now: int): Session {
    var expires := MinInt(i.expires, now + settings.absolute(i.role));
    Session(id, i.role, subject, email, now, now, expires, MinInt(expires, now + settings.idle(i.role)), false)
  }

  /** The steps of a sign-in with an invitation; none when it is refused. */
  function SignInSteps(settings: Settings, s: State, now: int, op: Op): seq<Step>
    requires op.SignIn?
  {
    if op.id !in s.invitations then []
    else
      var i := s.invitations[op.id];
      var status := AuthorizationOf(i, now);
      var open := Open(NewSession(settings, op.id, i, op.subject, op.email, now), i.Limit(), now);
      if status != IsPending && status != IsClaimed then []
      else if i.email != Some(op.email) then []
      else if status == IsPending then
        if op.token != Some(i.token) then []
        else if Claimable(s.invitations, op.id, i.token, now)
        then [TryClaim(op.id, i.token, now, op.subject, op.email), open]
        else [TryClaim(op.id, i.token, now, op.subject, op.email)]
      else if i.subject != Some(op.subject) || i.claimedEmail != Some(op.email) then []
      else [open]
  }

  /** The steps of validating a session: it is closed, refused or touched. */
  function ValidateSteps(settings: Settings, s: State, now: int, k: nat): seq<Step> {
    if k >= |s.sessions| then []
    else
      var session := s.sessions[k];
      if session.revoked then []
      else if session.expires <= now || session.idleExpires <= now then [Close(k)]
      else if session.invitation !in s.invitations then []
      else
        var i := s.invitations[session.invitation];
        if AuthorizationOf(i, now) != IsClaimed then []
        else if i.subject != Some(session.subject) || i.claimedEmail != Some(session.email) || i.role != session.role
        then []
        else [Touch(k, now, MinInt(session.expires, now + settings.idle(session.role)))]
  }

  /** The store steps of an operation that meets no other one. */
  function Steps(settings: Settings, s: State, now: int, op: Op): seq<Step> {
    match op
    case Invite(email, role, maxActive, duration) =>
      if 1 <= maxActive <= 5 then [Issue(email, role, maxActive, now + duration)] else []
    case UpdateAccess(id, newExpires, newLimit) =>
      if id !in s.invitations || (newLimit.Some? && !(1 <= newLimit.value <= 5)) then []
      else if AuthorizationOf(s.invitations[id], now) in {IsRevoked, IsLegacy} then []
      else if newLimit.Some? then [Update(id, newExpires, newLimit), Cut(id, newLimit.value, now)]
      else [Update(id, newExpires, newLimit)]
    case RegenerateLink(id, duration) =>
      if id !in s.invitations || AuthorizationOf(s.invitations[id], now) in {IsRevoked, IsLegacy} then []
      else [End(id), Regenerate(id, now + duration)]
    case RevokeAccess(id) => if id !in s.invitations then [] else [Withdraw(id), End(id)]
    case EndSessions(id) => if id !in s.invitations then [] else [End(id)]
    case DeleteAccess(id) =>
      if id !in s.invitations || AuthorizationOf(s.invitations[id], now) in {IsPending, IsClaimed} then []
      else [End(id), Delete(id)]
    case SignIn(_, _, _, _) => SignInSteps(settings, s, now, op)
    case Validate(k) => ValidateSteps(settings, s, now, k)
    case SignOut(k) => [Close(k)]
  }

  /** Who may open a session with an invitation: the invited account, before it expires, with the
      current link while it is pending, and as the account that claimed it afterwards. */
  predicate Admits(i: Invitation, now: int, token: Option<nat>, subject: int, email: int) {
    && i.email == Some(email) && i.expires > now
    && ((i.status == Pending && token == Some(i.token))
        || (i.status == Claimed && i.subject == Some(subject) && i.claimedEmail == Some(email)))
  }

  /** A sign-in opens a session exactly for those; the session is theirs, in the invitation's role, ends with
      the invitation or after the role's lifetime, may stay idle for the role's idle time, and is opened under
      the invitation's limit. */
  lemma SignInOpensIff(settings: Settings, s: State, now: int, op: Op)
    requires op.SignIn?
    ensures var steps := SignInSteps(settings, s, now, op);
            && ((exists step :: step in steps && step.Open?) <==>
                  op.id in s.invitations && Admits(s.invitations[op.id], now, op.token, op.subject, op.email))
            && forall step :: step in steps && step.Open? ==>
                 var i := s.invitations[op.id]; var d := step.document;
                 && step.limit == (if i.maxActive != 0 then i.maxActive
                                   else if i.role == Trader || i.role == Admin then 1 else 2)
                 && d.invitation == op.id && d.subject == op.subject && d.email == op.email
                 && !d.revoked && d.created == now == d.lastActivity && d.role == i.role
                 && d.expires == (if i.expires <= now + settings.absolute(i.role) then i.expires
                                  else now + settings.absolute(i.role))
                 && d.idleExpires == (if d.expires <= now + settings.idle(i.role) then d.expires
                                      else now + settings.idle(i.role))
  {
    var steps := SignInSteps(settings, s, now, op);
    if op.id in s.invitations && Admits(s.invitations[op.id], now, op.token, op.subject, op.email) {
      assert |steps| > 0 && steps[|steps| - 1].Open?;
    }
  }

  /** Validation touches the session. */
  predicate Accepts(settings: Settings, s: State, now: int, k: nat) {
    var steps := ValidateSteps(settings, s, now, k);
    steps != [] && steps[0].Touch?
  }

  /** A session is accepted exactly when it is open and unexpired and its invitation is still claimed by
      the same account with the same role. */
  lemma ValidateAcceptsIff(settings: Settings, s: State, now: int, k: nat)
    ensures Accepts(settings, s, now, k) <==>
              k < |s.sessions| && var session := s.sessions[k];
              && session.Active(now) && session.idleExpires > now && session.invitation in s.invitations
              && var i := s.invitations[session.invitation];
              && i.status == Claimed && i.email.Some? && i.expires > now && i.role == session.role
              && i.subject == Some(session.subject) && i.claimedEmail == Some(session.email)
  {
  }

  /** An accepted session has been active now, and may stay idle for its role's idle time from now, but not
      beyond its end; nothing else of it changes, and no other session. */
  lemma AcceptedIsTouched(settings: Settings, s: State, now: int, k: nat)
    requires Accepts(settings, s, now, k)
    ensures k < |s.sessions|
    ensures var after := ApplyAll(s, ValidateSteps(settings, s, now, k)); var before := s.sessions[k];
            var idle := now + settings.idle(before.role);
            && after.invitations == s.invitations
            && after.sessions == s.sessions[k := before.(lastActivity := now,
                                                         idleExpires := if before.expires <= idle then before.expires
                                                                        else idle)]
  {
    var touch := AcceptingStep(settings, s, now, k);
    hide ApplyAll, ValidateSteps, Accepts;
    OneStep(s, touch);
  }

  lemma AcceptingStep(settings: Settings, s: State, now: int, k: nat) returns (touch: Step)
    requires Accepts(settings, s, now, k)
    ensures k < |s.sessions| && !s.sessions[k].revoked
    ensures touch == Touch(k, now, MinInt(s.sessions[k].expires, now + settings.idle(s.sessions[k].role)))
    ensures ValidateSteps(settings, s, now, k) == [touch]
  {
    hide ApplyAll, AuthorizationOf;
    touch := ValidateSteps(settings, s, now, k)[0];
  }

  /** A new invitation has the role and limit asked for, and admits exactly the invited account with the new
      link until it expires. */
  lemma InviteTakesEffect(settings: Settings, s: State, now: int, op: Op, later: int, token: Option<nat>, subject: int,
                          account: int)
    requires op.Invite? && 1 <= op.maxActive <= 5
    ensures var after := ApplyAll(s, Steps(settings, s, now, op));
            && s.nextInvitation in after.invitations
            && var i := after.invitations[s.nextInvitation];
               && after.invitations == s.invitations[s.nextInvitation := i] && after.sessions == s.sessions
               && i.role == op.role && i.Limit() == op.maxActive
               && (Admits(i, later, token, subject, account) <==>
                     account == op.email && token == Some(s.nextToken) && later < now + op.duration)
  {
    OneStep(s, Steps(settings, s, now, op)[0]);
  }

  /** An update is refused exactly for a missing, revoked or legacy access or an invalid limit; otherwise it
      sets what it is given and leaves all else of the invitations. */
  lemma UpdateTakesEffect(settings: Settings, s: State, now: int, op: Op)
    requires op.UpdateAccess?
    ensures Steps(settings, s, now, op) == [] <==>
              op.id !in s.invitations || s.invitations[op.id].status == Revoked
              || s.invitations[op.id].status == Legacy || s.invitations[op.id].email.None?
              || (op.newLimit.Some? && !(1 <= op.newLimit.value <= 5))
    ensures Steps(settings, s, now, op) != [] ==>
              var after := ApplyAll(s, Steps(settings, s, now, op)); var before := s.invitations[op.id];
              && op.id in after.invitations
              && var i := after.invitations[op.id];
                 && after.invitations == s.invitations[op.id := i]
                 && i == before.(expires := i.expires, maxActive := i.maxActive)
                 && i.expires == (if op.newExpires.Some? then op.newExpires.value else before.expires)
                 && i.Limit() == (if op.newLimit.Some? then op.newLimit.value else before.Limit())
  {
    hide Trim;
    if Steps(settings, s, now, op) != [] {
      var update := Update(op.id, op.newExpires, op.newLimit);
      if op.newLimit.Some? {
        TwoSteps(s, update, Cut(op.id, op.newLimit.value, now));
      } else {
        OneStep(s, update);
      }
    }
  }

  /** A revoked access is revoked; a deleted one is gone, and exactly those that could still be used cannot be
      deleted. */
  lemma RemovalTakesEffect(settings: Settings, s: State, now: int, id: nat)
    ensures id in s.invitations ==>
              ApplyAll(s, Steps(settings, s, now, RevokeAccess(id))).invitations
              == s.invitations[id := s.invitations[id].(status := Revoked)]
    ensures Steps(settings, s, now, Op.DeleteAccess(id)) == [] <==>
              id !in s.invitations
              || (s.invitations[id].email.Some? && s.invitations[id].expires > now
                  && s.invitations[id].status in {Pending, Claimed})
    ensures Steps(settings, s, now, Op.DeleteAccess(id)) != [] ==>
              ApplyAll(s, Steps(settings, s, now, Op.DeleteAccess(id))).invitations == s.invitations - {id}
  {
    hide Terminate;
    TwoSteps(s, Withdraw(id), End(id));
    TwoSteps(s, End(id), Delete(id));
  }

  // ---------------------------------------------------------------- the session limit

  /** The number of active sessions of an invitation. */
  function ActiveCount(s: State, id: nat, now: int): nat {
    |ActiveIds(s.sessions, id, now)|
  }

  ghost predicate Known(s: State) {
    (forall id :: id in s.invitations ==> id < s.nextInvitation)
    && forall k :: 0 <= k < |s.sessions| ==> s.sessions[k].invitation < s.nextInvitation
  }

  ghost predicate WithinLimit(s: State, id: nat, now: int) {
    id in s.invitations ==> ActiveCount(s, id, now) <= s.invitations[id].Limit()
  }

  ghost predicate LimitInv(s: State, now: int) {
    Known(s) && forall id :: WithinLimit(s, id, now)
  }

  lemma Quieter(before: Sessions, after: Sessions, id: nat, now: int)
    requires ActiveIds(after, id, now) <= ActiveIds(before, id, now)
    ensures |ActiveIds(after, id, now)| <= |ActiveIds(before, id, now)|
  {
    SubsetCounts(ActiveIds(after, id, now), ActiveIds(before, id, now));
  }

  /** Steps that open nothing and lower no limit. */
  predicate IsQuiet(s: State, step: Step) {
    || step.Issue? || step.Regenerate? || step.Withdraw? || step.Delete?
    || step.TryClaim? || step.End? || step.Touch? || step.Close?
    || (step.Update? && step.newLimit.None?)
  }

  lemma QuietSessions(s: State, step: Step, now: int)
    requires IsQuiet(s, step)
    ensures |Apply(s, step).sessions| == |s.sessions|
    ensures forall k :: 0 <= k < |s.sessions| ==> Apply(s, step).sessions[k].invitation == s.sessions[k].invitation
    ensures forall id :: ActiveIds(Apply(s, step).sessions, id, now) <= ActiveIds(s.sessions, id, now)
  {
  }

  lemma QuietLimits(s: State, step: Step)
    requires IsQuiet(s, step) && Known(s)
    ensures s.nextInvitation <= Apply(s, step).nextInvitation
    ensures forall id :: id in Apply(s, step).invitations ==>
              if id in s.invitations then Apply(s, step).invitations[id].Limit() == s.invitations[id].Limit()
              else id == s.nextInvitation < Apply(s, step).nextInvitation
  {
  }

  lemma QuietKeepsLimit(s: State, step: Step, now: int)
    requires LimitInv(s, now) && IsQuiet(s, step)
    ensures LimitInv(Apply(s, step), now)
  {
    hide Apply, Session.Active, Invitation.Limit;
    var after := Apply(s, step);
    QuietSessions(s, step, now);
    QuietLimits(s, step);
    forall id
      ensures WithinLimit(after, id, now)
    {
      Quieter(s.sessions, after.sessions, id, now);
      if id in after.invitations && id !in s.invitations {
        assert ActiveIds(after.sessions, id, now) == {};
      } else {
        assert WithinLimit(s, id, now);
      }
    }
  }

  /** A sign-in that knows the current limit keeps it. */
  lemma OpenKeepsLimit(s: State, document: Session, now: int)
    requires LimitInv(s, now) && document.invitation in s.invitations
    ensures LimitInv(Apply(s, Open(document, s.invitations[document.invitation].Limit(), now)), now)
  {
    hide RevokeAll, Session.Active, Replaced;
    var limit := s.invitations[document.invitation].Limit();
    var after := Apply(s, Open(document, limit, now));
    CreateLimitedCounts(s.sessions, document, limit, now);
    forall id
      ensures WithinLimit(after, id, now)
    {
      assert WithinLimit(s, id, now);
      assert id != document.invitation ==> ActiveIds(after.sessions, id, now) == ActiveIds(s.sessions, id, now);
    }
    SessionsStayKnown(s, document, limit, now);
  }

  lemma SessionsStayKnown(s: State, document: Session, limit: nat, now: int)
    requires Known(s) && limit >= 1 && document.invitation < s.nextInvitation
    ensures Known(s.(sessions := CreateLimited(s.sessions, document, limit, now)))
  {
    hide Replaced;
  }

  /** Lowering a limit and trimming keeps it. */
  lemma CutKeepsLimit(s: State, id: nat, newExpires: Option<int>, limit: nat, now: int)
    requires LimitInv(s, now) && limit >= 1 && id in s.invitations
    ensures LimitInv(Apply(Apply(s, Update(id, newExpires, Some(limit))), Cut(id, limit, now)), now)
  {
    hide RevokeAll, Session.Active, Surplus;
    var updated := Apply(s, Update(id, newExpires, Some(limit)));
    var after := Apply(updated, Cut(id, limit, now));
    TrimCounts(s.sessions, id, limit, now);
    forall other
      ensures WithinLimit(after, other, now)
    {
      assert WithinLimit(s, other, now);
      assert other != id ==> ActiveIds(after.sessions, other, now) == ActiveIds(s.sessions, other, now);
    }
    assert forall k :: 0 <= k < |s.sessions| ==> after.sessions[k].invitation == s.sessions[k].invitation;
  }

  lemma NoStep(s: State)
    ensures ApplyAll(s, []) == s
  {
  }

  lemma OneStep(s: State, a: Step)
    ensures ApplyAll(s, [a]) == Apply(s, a)
  {
  }

  lemma TwoSteps(s: State, a: Step, b: Step)
    ensures ApplyAll(s, [a, b]) == Apply(Apply(s, a), b)
  {
    hide Apply;
    assert [a, b][1..] == [b];
    OneStep(Apply(s, a), b);
  }

  lemma ClaimKeepsLimits(s: State, id: nat, token: nat, now: int, subject: int, email: int)
    requires id in s.invitations
    ensures var after := Apply(s, TryClaim(id, token, now, subject, email));
            id in after.invitations && after.invitations[id].Limit() == s.invitations[id].Limit()
  {
  }

  /** A sign-in keeps the limit, also when it claims the invitation first. */
  lemma SignInKeepsLimit(settings: Settings, s: State, now: int, op: Op)
    requires LimitInv(s, now) && op.SignIn?
    ensures LimitInv(ApplyAll(s, SignInSteps(settings, s, now, op)), now)
  {
    hide LimitInv, ApplyAll, Apply, NewSession, AuthorizationOf, Claimable;
    var steps := SignInSteps(settings, s, now, op);
    NoStep(s);
    if steps != [] {
      var i := s.invitations[op.id];
      var document := NewSession(settings, op.id, i, op.subject, op.email, now);
      NewSessionOf(settings, op.id, i, op.subject, op.email, now);
      var open := Open(document, i.Limit(), now);
      if steps == [open] {
        OneStep(s, open);
        OpenKeepsLimit(s, document, now);
      } else {
        var claim := TryClaim(op.id, i.token, now, op.subject, op.email);
        QuietKeepsLimit(s, claim, now);
        ClaimKeepsLimits(s, op.id, i.token, now, op.subject, op.email);
        OneStep(s, claim);
        if |steps| == 2 {
          TwoSteps(s, claim, open);
          OpenKeepsLimit(Apply(s, claim), document, now);
        }
      }
    }
  }

  lemma NewSessionOf(settings: Settings, id: nat, i: Invitation, subject: int, email: int, now: int)
    ensures NewSession(settings, id, i, subject, email, now).invitation == id
  {
  }

  lemma QuietStepsKeepLimit(s: State, steps: seq<Step>, now: int)
    requires LimitInv(s, now) && |steps| <= 2 && forall step :: step in steps ==> QuietAlways(step)
    ensures LimitInv(ApplyAll(s, steps), now)
  {
    hide LimitInv, ApplyAll, Apply;
    NoStep(s);
    if |steps| >= 1 {
      assert steps[0] in steps;
      QuietKeepsLimit(s, steps[0], now);
      OneStep(s, steps[0]);
    }
    if |steps| == 2 {
      assert steps[1] in steps;
      QuietKeepsLimit(Apply(s, steps[0]), steps[1], now);
      TwoSteps(s, steps[0], steps[1]);
      assert steps == [steps[0], steps[1]];
    } else if |steps| == 1 {
      assert steps == [steps[0]];
    }
  }

  predicate QuietAlways(step: Step) {
    IsQuiet(INITIAL, step)
  }

  /** Every operation of the service keeps the limits. */
  lemma OpKeepsLimit(settings: Settings, s: State, now: int, op: Op)
    requires LimitInv(s, now)
    ensures LimitInv(ApplyAll(s, Steps(settings, s, now, op)), now)
  {
    hide LimitInv, ApplyAll, Apply, AuthorizationOf, SignInSteps, ValidateSteps;
    if op.SignIn? {
      SignInKeepsLimit(settings, s, now, op);
    } else if op.UpdateAccess? && op.newLimit.Some? {
      if Steps(settings, s, now, op) == [] {
        NoStep(s);
      } else {
        TwoSteps(s, Update(op.id, op.newExpires, op.newLimit), Cut(op.id, op.newLimit.value, now));
        CutKeepsLimit(s, op.id, op.newExpires, op.newLimit.value, now);
      }
    } else {
      ValidateIsQuiet(settings, s, now, if op.Validate? then op.session else 0);
      QuietStepsKeepLimit(s, Steps(settings, s, now, op), now);
    }
  }

  lemma ValidateIsQuiet(settings: Settings, s: State, now: int, k: nat)
    ensures |ValidateSteps(settings, s, now, k)| <= 1
    ensures forall step :: step in ValidateSteps(settings, s, now, k) ==> QuietAlways(step)
  {
  }

  lemma TimeKeepsLimit(s: State, now: int, later: int)
    requires LimitInv(s, now) && now <= later
    ensures LimitInv(s, later)
  {
    forall id
      ensures WithinLimit(s, id, later)
    {
      assert WithinLimit(s, id, now);
      ActiveFades(s.sessions, id, now, later);
    }
  }

  /** An operation and the time it happens at. */
  datatype Timed = Timed(now: int, op: Op)

  function RunOps(settings: Settings, s: State, ops: seq<Timed>): State
    decreases |ops|
  {
    if ops == [] then s
    else RunOps(settings, ApplyAll(s, Steps(settings, s, ops[0].now, ops[0].op)), ops[1..])
  }

  ghost predicate Ordered(ops: seq<Timed>, from: int) {
    && (forall i :: 0 <= i < |ops| ==> from <= ops[i].now)
    && (forall i, j :: 0 <= i <= j < |ops| ==> ops[i].now <= ops[j].now)
  }

  lemma {:induction false} RunKeepsLimit(settings: Settings, s: State, ops: seq<Timed>, from: int, later: int)
    requires LimitInv(s, from) && Ordered(ops, from) && from <= later
    requires forall i :: 0 <= i < |ops| ==> ops[i].now <= later
    ensures LimitInv(RunOps(settings, s, ops), later)
    decreases |ops|
  {
    hide LimitInv, ApplyAll, Steps;
    if ops == [] {
      TimeKeepsLimit(s, from, later);
    } else {
      TimeKeepsLimit(s, from, ops[0].now);
      OpKeepsLimit(settings, s, ops[0].now, ops[0].op);
      RunKeepsLimit(settings, ApplyAll(s, Steps(settings, s, ops[0].now, ops[0].op)), ops[1..], ops[0].now, later);
    }
  }

  /** After any operations in non-decreasing time, and at any later time, no invitation has more
      active sessions than its limit. */
  lemma SessionsStayWithinLimit(settings: Settings, ops: seq<Timed>, from: int, later: int, id: nat)
    requires Ordered(ops, from) && from <= later && forall i :: 0 <= i < |ops| ==> ops[i].now <= later
    ensures var s := RunOps(settings, INITIAL, ops);
            id in s.invitations ==> ActiveCount(s, id, later) <= s.invitations[id].Limit()
  {
    RunKeepsLimit(settings, INITIAL, ops, from, later);
    assert WithinLimit(RunOps(settings, INITIAL, ops), id, later);
  }

  /** A sign-in whose view of the limit may be old keeps the present one if and only if the limit it
      read is not larger, or a place is free. */
  lemma OpenKeepsLimitIff(s: State, document: Session, read: nat, now: int)
    requires LimitInv(s, now) && document.invitation in s.invitations && document.Active(now) && read >= 1
    ensures var limit := s.invitations[document.invitation].Limit();
            WithinLimit(Apply(s, Open(document, read, now)), document.invitation, now) <==>
              (read <= limit || ActiveCount(s, document.invitation, now) < limit)
  {
    hide CreateLimited;
    assert WithinLimit(s, document.invitation, now);
    CreateLimitedCounts(s.sessions, document, read, now);
  }

  lemma CreateLimitedGrows(sessions: Sessions, document: Session, limit: nat, now: int)
    requires limit >= 1
    ensures |CreateLimited(sessions, document, limit, now)| == |sessions| + 1
  {
  }

  // ---------------------------------------------------------------- the methods of the service

  /** The service's operations as it runs them on the store when no other one interferes. The ghost
      state says what the store holds; the token a claim or a new link stores is given. */
  class Service {
    const store: Store
    const settings: Settings

    constructor (store: Store, settings: Settings)
      ensures this.store == store && this.settings == settings
    {
      this.store, this.settings := store, settings;
    }

    ghost predicate Holds(s: State)
      reads store
    {
      store.invitations == s.invitations && store.sessions == s.sessions
    }

    method CreateInvitation(ghost s: State, id: nat, email: int, role: Role, maxActive: nat, duration: int, now: int,
                            unseen: nat)
      returns (created: bool)
      requires Holds(s) && s.nextInvitation == id && s.nextToken == unseen
      modifies store
      ensures Holds(ApplyAll(s, Steps(settings, s, now, Invite(email, role, maxActive, duration))))
      ensures created <==> 1 <= maxActive <= 5
    {
      NoStep(s);
      created := 1 <= maxActive <= 5;
      if created {
        OneStep(s, Issue(email, role, maxActive, now + duration));
        var i := Invitation(Some(email), role, maxActive, unseen, 1, Pending, now + duration, None, None);
        store.CreateInvitation(id, i);
      }
    }

    /** create_google_session with an invitation; it tells whether a session was opened. */
    method CreateGoogleSession(ghost s: State, id: nat, token: Option<nat>, subject: int, email: int, now: int,
                               unseen: nat)
      returns (granted: bool)
      requires Holds(s) && s.nextToken == unseen
      modifies store
      ensures Holds(ApplyAll(s, Steps(settings, s, now, SignIn(id, token, subject, email))))
      ensures granted <==> |store.sessions| > |s.sessions|
    {
      hide CreateLimited;
      ghost var steps := SignInSteps(settings, s, now, SignIn(id, token, subject, email));
      NoStep(s);
      granted := false;
      if id !in store.invitations {
        return;
      }
      var document := store.invitations[id];
      var status := AuthorizationOf(document, now);
      if status != IsPending && status != IsClaimed {
        return;
      }
      if document.email != Some(email) {
        return;
      }
      if status == IsPending {
        if token != Some(document.token) {
          return;
        }
        OneStep(s, TryClaim(id, document.token, now, subject, email));
        var claimed := store.ClaimInvitation(id, document.token, now, subject, email, unseen);
        if claimed.None? {
          return;
        }
        document := claimed.value;
        TwoSteps(s, steps[0], steps[1]);
        assert steps == [steps[0], steps[1]];
      } else {
        if document.subject != Some(subject) || document.claimedEmail != Some(email) {
          return;
        }
        OneStep(s, steps[0]);
        assert steps == [steps[0]];
      }
      granted := true;
      var session := NewSession(settings, id, document, subject, email, now);
      CreateLimitedGrows(store.sessions, session, document.Limit(), now);
      var removed := store.CreateLimitedSession(session, document.Limit(), now);
    }

    /** update_invitation: the new limit is enforced at once. */
    method UpdateAccess(ghost s: State, id: nat, newExpires: Option<int>, newLimit: Option<nat>, now: int)
      returns (updated: bool)
      requires Holds(s)
      modifies store
      ensures Holds(ApplyAll(s, Steps(settings, s, now, Op.UpdateAccess(id, newExpires, newLimit))))
      ensures updated <==> Steps(settings, s, now, Op.UpdateAccess(id, newExpires, newLimit)) != []
    {
      hide Trim, ApplyAll, AuthorizationOf;
      updated := false;
      NoStep(s);
      if id !in store.invitations || (newLimit.Some? && !(1 <= newLimit.value <= 5)) {
        return;
      }
      var status := AuthorizationOf(store.invitations[id], now);
      if status == IsRevoked || status == IsLegacy {
        return;
      }
      var result := store.UpdateInvitation(id, Extend(newExpires, newLimit));
      updated := true;
      if newLimit.Some? {
        TwoSteps(s, Update(id, newExpires, newLimit), Cut(id, newLimit.value, now));
        var removed := store.TrimActiveSessions(id, newLimit.value, now);
      } else {
        OneStep(s, Update(id, newExpires, newLimit));
      }
    }

    /** regenerate_access_link: the sessions end before the new link exists. */
    method RegenerateAccessLink(ghost s: State, id: nat, duration: int, now: int, unseen: nat) returns (relinked: bool)
      requires Holds(s) && s.nextToken == unseen
      modifies store
      ensures Holds(ApplyAll(s, Steps(settings, s, now, RegenerateLink(id, duration))))
      ensures relinked <==> Steps(settings, s, now, RegenerateLink(id, duration)) != []
    {
      hide Terminate, ApplyAll, AuthorizationOf;
      NoStep(s);
      relinked := false;
      if id !in store.invitations {
        return;
      }
      var status := AuthorizationOf(store.invitations[id], now);
      if status == IsRevoked || status == IsLegacy {
        return;
      }
      TwoSteps(s, End(id), Regenerate(id, now + duration));
      var count := store.TerminateSessions(id);
      var updated := store.UpdateInvitation(id, Relink(unseen, now + duration));
      relinked := true;
    }

    /** revoke_invitation */
    method RevokeInvitation(ghost s: State, id: nat, now: int) returns (found: bool)
      requires Holds(s)
      modifies store
      ensures Holds(ApplyAll(s, Steps(settings, s, now, RevokeAccess(id))))
      ensures found <==> id in s.invitations
    {
      hide Terminate, ApplyAll;
      NoStep(s);
      found := id in store.invitations;
      if found {
        TwoSteps(s, Withdraw(id), End(id));
        var updated := store.UpdateInvitation(id, Revoke);
        var count := store.TerminateSessions(id);
      }
    }

    /** terminate_sessions; it counts the sessions that were open. */
    method TerminateAccessSessions(ghost s: State, id: nat, now: int) returns (count: Option<nat>)
      requires Holds(s)
      modifies store
      ensures Holds(ApplyAll(s, Steps(settings, s, now, EndSessions(id))))
      ensures count == if id in s.invitations then Some(CountOpen(s.sessions, id)) else None
    {
      hide Terminate, ApplyAll, CountOpen;
      NoStep(s);
      if id !in store.invitations {
        return None;
      }
      OneStep(s, End(id));
      var ended := store.TerminateSessions(id);
      return Some(ended);
    }

    /** delete_invitation: only what can no longer be used. */
    method DeleteAccess(ghost s: State, id: nat, now: int) returns (deleted: bool)
      requires Holds(s)
      modifies store
      ensures Holds(ApplyAll(s, Steps(settings, s, now, Op.DeleteAccess(id))))
      ensures deleted <==> Steps(settings, s, now, Op.DeleteAccess(id)) != []
    {
      hide Terminate, ApplyAll, AuthorizationOf;
      NoStep(s);
      deleted := false;
      if id !in store.invitations {
        return;
      }
      var status := AuthorizationOf(store.invitations[id], now);
      if status == IsPending || status == IsClaimed {
        return;
      }
      TwoSteps(s, End(id), Delete(id));
      var count := store.TerminateSessions(id);
      deleted := store.DeleteInvitation(id);
    }

    /** validate_access_session: whether the session is accepted. */
    method ValidateAccessSession(ghost s: State, k: nat, now: int) returns (accepted: bool)
      requires Holds(s)
      modifies store
      ensures Holds(ApplyAll(s, Steps(settings, s, now, Validate(k))))
      ensures accepted <==> Accepts(settings, s, now, k)
    {
      hide ApplyAll, AuthorizationOf;
      NoStep(s);
      accepted := false;
      if k >= |store.sessions| {
        return;
      }
      var session := store.sessions[k];
      if session.revoked {
        return;
      }
      if session.expires <= now || session.idleExpires <= now {
        OneStep(s, Close(k));
        var closed := store.RevokeSession(k);
        return;
      }
      if session.invitation !in store.invitations {
        return;
      }
      var document := store.invitations[session.invitation];
      if AuthorizationOf(document, now) != IsClaimed {
        return;
      }
      if document.subject != Some(session.subject) || document.claimedEmail != Some(session.email) {
        return;
      }
      if document.role != session.role {
        return;
      }
      var idle := MinInt(session.expires, now + settings.idle(session.role));
      OneStep(s, Touch(k, now, idle));
      var touched := store.TouchSession(k, now, idle);
      accepted := true;
    }

    /** revoke_access_session */
    method SignOutSession(ghost s: State, k: nat, now: int) returns (found: bool)
      requires Holds(s)
      modifies store
      ensures Holds(ApplyAll(s, Steps(settings, s, now, SignOut(k))))
      ensures found <==> k < |s.sessions|
    {
      OneStep(s, Close(k));
      found := store.RevokeSession(k);
    }
  }
}
