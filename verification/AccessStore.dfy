/**
 The in-memory access store: invitations and sessions of auth/access_store.py (InMemoryAccessStore).

 Main results: a limited session leaves min(active, limit - 1) older active sessions and trimming
 leaves min(active, limit), always evicting the oldest (CreateLimitedCounts, TrimCounts, and their
 evictions); a claim is a compare-and-set on a pending invitation with the expected token, after
 which that token is worth nothing (ClaimNeedsCurrentToken).

 Identifiers of sessions are their positions in the order of insertion; digests of tokens are the
 tokens themselves, so two digests are equal exactly when the tokens are. Time is in seconds.
 */
module AccessStore {
  import opened Common

  datatype Role = ReplayGuest | Viewer | Trader | Admin

  datatype Status = Pending | Claimed | Blocked | Revoked | Legacy

  datatype Invitation = Invitation(email: Option<int>, role: Role, maxActive: nat, token: nat, version: nat,
    status: Status, expires: int, subject: Option<int>, claimedEmail: Option<int>)
  {
    /** The session limit, with the default of the role when none is stored. */
    function Limit(): nat {
      if maxActive != 0 then maxActive else if role == Trader || role == Admin then 1 else 2
    }
  }

  datatype Session = Session(invitation: nat, role: Role, subject: int, email: int, created: int, lastActivity: int,
    expires: int, idleExpires: int, revoked: bool)
  {
    predicate Active(now: int) { !revoked && expires > now }
  }

  /** The fields an update of an invitation sets. */
  datatype Change =
    | Extend(newExpires: Option<int>, newLimit: Option<nat>)
    | Relink(token: nat, expires: int)
    | Revoke

  function Changed(i: Invitation, change: Change): Invitation {
    match change
    case Extend(expires, maxActive) =>
      i.(expires := if expires.Some? then expires.value else i.expires,
         maxActive := if maxActive.Some? then maxActive.value else i.maxActive)
    case Relink(token, expires) =>
      i.(token := token, version := i.version + 1, expires := expires, status := Pending,
         subject := None, claimedEmail := None)
    case Revoke => i.(status := Revoked)
  }

  type Invitations = map<nat, Invitation>
  type Sessions = seq<Session>

  // ---------------------------------------------------------------- active sessions, sorted

  function ActiveIds(sessions: Sessions, invitation: nat, now: int): (ids: set<nat>)
    ensures forall i: nat :: i in ids <==>
              i < |sessions| && sessions[i].invitation == invitation && sessions[i].Active(now)
  {
    set i: nat | i < |sessions| && sessions[i].invitation == invitation && sessions[i].Active(now)
  }

  /** The same in the order of insertion. */
  function ActiveList(sessions: Sessions, invitation: nat, now: int): (ids: seq<nat>)
    ensures multiset(ids) == multiset(ActiveIds(sessions, invitation, now))
    ensures Below(ids, |sessions|)
  {
    if sessions == [] then []
    else
      var n := |sessions| - 1;
      hide ActiveIds, Session.Active;
      LastIsActive(sessions, n, invitation, now);
      var before := ActiveList(sessions[..n], invitation, now);
      if sessions[n].invitation == invitation && sessions[n].Active(now) then before + [n] else before
  }

  lemma LastIsActive(sessions: Sessions, n: nat, invitation: nat, now: int)
    requires n + 1 == |sessions|
    ensures ActiveIds(sessions, invitation, now)
            == ActiveIds(sessions[..n], invitation, now)
               + if sessions[n].invitation == invitation && sessions[n].Active(now) then {n} else {}
    ensures n !in ActiveIds(sessions[..n], invitation, now)
  {
    hide Session.Active;
  }

  ghost predicate Below(ids: seq<nat>, n: nat) {
    forall k :: 0 <= k < |ids| ==> ids[k] < n
  }

  /** Whether session a comes strictly before b by creation, newest first when reversed. */
  predicate CreatedBefore(sessions: Sessions, a: nat, b: nat, reversed: bool)
    requires a < |sessions| && b < |sessions|
  {
    if reversed then sessions[b].created < sessions[a].created else sessions[a].created < sessions[b].created
  }

  /** A stable insertion: behind everything the new one is not strictly before. */
  function Insert(sessions: Sessions, sorted: seq<nat>, id: nat, reversed: bool): (longer: seq<nat>)
    requires Below(sorted, |sessions|) && id < |sessions|
    ensures Below(longer, |sessions|) && multiset(longer) == multiset(sorted) + multiset{id}
  {
    var n := |sorted|;
    if n == 0 || !CreatedBefore(sessions, id, sorted[n - 1], reversed) then sorted + [id]
    else
      assert sorted == sorted[..n - 1] + [sorted[n - 1]];
      Insert(sessions, sorted[..n - 1], id, reversed) + [sorted[n - 1]]
  }

  /** A stable sort by creation. */
  function SortByCreation(sessions: Sessions, ids: seq<nat>, reversed: bool): (sorted: seq<nat>)
    requires Below(ids, |sessions|)
    ensures Below(sorted, |sessions|) && multiset(sorted) == multiset(ids)
  {
    if ids == [] then []
    else
      var n := |ids| - 1;
      assert ids == ids[..n] + [ids[n]];
      Insert(sessions, SortByCreation(sessions, ids[..n], reversed), ids[n], reversed)
  }

  ghost predicate InOrder(sessions: Sessions, ids: seq<nat>, reversed: bool)
    requires Below(ids, |sessions|)
  {
    forall i, j :: 0 <= i < j < |ids| ==> !CreatedBefore(sessions, ids[j], ids[i], reversed)
  }

  lemma InsertedMember(sessions: Sessions, sorted: seq<nat>, id: nat, reversed: bool, x: nat)
    requires Below(sorted, |sessions|) && id < |sessions| && x in Insert(sessions, sorted, id, reversed)
    ensures x == id || x in sorted
  {
    hide Insert;
    assert x in multiset(Insert(sessions, sorted, id, reversed));
    assert x != id ==> x in multiset(sorted);
  }

  lemma AppendKeepsOrder(sessions: Sessions, front: seq<nat>, last: nat, reversed: bool)
    requires Below(front, |sessions|) && last < |sessions| && InOrder(sessions, front, reversed)
    requires forall x: nat :: x in front ==> x < |sessions| && !CreatedBefore(sessions, last, x, reversed)
    ensures InOrder(sessions, front + [last], reversed)
  {
    assert forall i :: 0 <= i < |front| ==> front[i] in front;
  }

  lemma {:induction false} InsertKeepsOrder(sessions: Sessions, sorted: seq<nat>, id: nat, reversed: bool)
    requires Below(sorted, |sessions|) && id < |sessions| && InOrder(sessions, sorted, reversed)
    ensures InOrder(sessions, Insert(sessions, sorted, id, reversed), reversed)
  {
    var n := |sorted|;
    if n > 0 && CreatedBefore(sessions, id, sorted[n - 1], reversed) {
      InsertKeepsOrder(sessions, sorted[..n - 1], id, reversed);
      var front := Insert(sessions, sorted[..n - 1], id, reversed);
      forall x: nat | x in front
        ensures x < |sessions| && !CreatedBefore(sessions, sorted[n - 1], x, reversed)
      {
        InsertedMember(sessions, sorted[..n - 1], id, reversed, x);
      }
      AppendKeepsOrder(sessions, front, sorted[n - 1], reversed);
    } else {
      AppendKeepsOrder(sessions, sorted, id, reversed);
    }
  }

  lemma {:induction false} SortIsInOrder(sessions: Sessions, ids: seq<nat>, reversed: bool)
    requires Below(ids, |sessions|)
    ensures InOrder(sessions, SortByCreation(sessions, ids, reversed), reversed)
  {
    if ids != [] {
      var n := |ids| - 1;
      SortIsInOrder(sessions, ids[..n], reversed);
      InsertKeepsOrder(sessions, SortByCreation(sessions, ids[..n], reversed), ids[n], reversed);
    }
  }

  /** The active sessions by creation, as both operations list them. */
  function Active(sessions: Sessions, invitation: nat, now: int, reversed: bool): (sorted: seq<nat>)
    ensures Below(sorted, |sessions|) && multiset(sorted) == multiset(ActiveIds(sessions, invitation, now))
    ensures |sorted| == |ActiveIds(sessions, invitation, now)|
  {
    var sorted := SortByCreation(sessions, ActiveList(sessions, invitation, now), reversed);
    assert |multiset(sorted)| == |sorted|;
    sorted
  }

  /** Marks the listed sessions as revoked. */
  function RevokeAll(sessions: Sessions, ids: seq<nat>): (after: Sessions)
    requires Below(ids, |sessions|)
    ensures |after| == |sessions|
    ensures forall i: nat :: i < |sessions| ==>
              after[i] == if i in ids then sessions[i].(revoked := true) else sessions[i]
    decreases |ids|
  {
    if ids == [] then sessions
    else
      assert ids == [ids[0]] + ids[1..];
      RevokeAll(sessions[ids[0] := sessions[ids[0]].(revoked := true)], ids[1..])
  }

  // ---------------------------------------------------------------- the operations

  function Excess(active: nat, limit: int): (n: nat) {
    if active - limit + 1 > 0 then active - limit + 1 else 0
  }

  /** The sessions a new one replaces: the oldest, down to one below the limit. */
  function Replaced(sessions: Sessions, invitation: nat, limit: nat, now: int): (ids: seq<nat>)
    requires limit >= 1
    ensures Below(ids, |sessions|)
  {
    var active := Active(sessions, invitation, now, false);
    active[..Excess(|active|, limit)]
  }

  function CreateLimited(sessions: Sessions, document: Session, limit: nat, now: int): (after: Sessions)
    requires limit >= 1
  {
    RevokeAll(sessions, Replaced(sessions, document.invitation, limit, now)) + [document]
  }

  /** The sessions above the limit: all but the newest. */
  function Surplus(sessions: Sessions, invitation: nat, limit: nat, now: int): (ids: seq<nat>)
    ensures Below(ids, |sessions|)
  {
    var active := Active(sessions, invitation, now, true);
    if |active| <= limit then [] else active[limit..]
  }

  function Trim(sessions: Sessions, invitation: nat, limit: nat, now: int): (after: Sessions) {
    RevokeAll(sessions, Surplus(sessions, invitation, limit, now))
  }

  function Terminate(sessions: Sessions, invitation: nat): (after: Sessions)
    ensures |after| == |sessions|
    ensures forall i :: 0 <= i < |sessions| ==>
              after[i] == if sessions[i].invitation == invitation then sessions[i].(revoked := true) else sessions[i]
  {
    if sessions == [] then []
    else
      var n := |sessions| - 1;
      Terminate(sessions[..n], invitation)
        + [if sessions[n].invitation == invitation then sessions[n].(revoked := true) else sessions[n]]
  }

  /** The sessions of an invitation that are not revoked, expired or not. */
  function CountOpen(sessions: Sessions, invitation: nat): nat {
    if sessions == [] then 0
    else
      var last := sessions[|sessions| - 1];
      CountOpen(sessions[..|sessions| - 1], invitation)
      + if last.invitation == invitation && !last.revoked then 1 else 0
  }

  predicate Claimable(invitations: Invitations, id: nat, expected: nat, now: int) {
    && id in invitations
    && invitations[id].status == Pending && invitations[id].token == expected && invitations[id].expires > now
  }

  /** The compare-and-set of a claim; the token is replaced by one nobody has seen. */
  function Claim(invitations: Invitations, id: nat, expected: nat, now: int, subject: int, email: int,
                 unseen: nat): (after: Invitations) {
    if Claimable(invitations, id, expected, now)
    then
      invitations[id := invitations[id].(status := Claimed, subject := Some(subject), claimedEmail := Some(email),
                                         token := unseen)]
    else invitations
  }

  class Store {
    var invitations: Invitations
    var sessions: Sessions

    constructor ()
      ensures invitations == map[] && sessions == []
    {
      invitations, sessions := map[], [];
    }

    method CreateInvitation(id: nat, document: Invitation)
      modifies this
      ensures sessions == old(sessions) && invitations == old(invitations)[id := document]
    {
      invitations := invitations[id := document];
    }

    method UpdateInvitation(id: nat, change: Change) returns (updated: Option<Invitation>)
      modifies this
      ensures sessions == old(sessions)
      ensures updated == if id in old(invitations) then Some(Changed(old(invitations)[id], change)) else None
      ensures invitations == if id in old(invitations)
                             then old(invitations)[id := Changed(old(invitations)[id], change)]
                             else old(invitations)
    {
      if id !in invitations {
        return None;
      }
      invitations := invitations[id := Changed(invitations[id], change)];
      return Some(invitations[id]);
    }

    method ClaimInvitation(id: nat, expected: nat, now: int, subject: int, email: int,
                           unseen: nat)
      returns (claimed: Option<Invitation>)
      modifies this
      ensures sessions == old(sessions)
              && invitations == Claim(old(invitations), id, expected, now, subject, email, unseen)
      ensures claimed == if Claimable(old(invitations), id, expected, now) then Some(invitations[id]) else None
    {
      if id !in invitations {
        return None;
      }
      var item := invitations[id];
      if item.status != Pending || item.token != expected || item.expires <= now {
        return None;
      }
      item := item.(status := Claimed, subject := Some(subject), claimedEmail := Some(email), token := unseen);
      invitations := invitations[id := item];
      return Some(item);
    }

    method DeleteInvitation(id: nat) returns (deleted: bool)
      modifies this
      ensures sessions == old(sessions) && invitations == old(invitations) - {id}
      ensures deleted <==> id in old(invitations)
    {
      deleted := id in invitations;
      invitations := invitations - {id};
    }

    method RevokeEach(ids: seq<nat>)
      requires Below(ids, |sessions|)
      modifies this
      ensures invitations == old(invitations) && sessions == RevokeAll(old(sessions), ids)
    {
      var open := sessions;
      for k := 0 to |ids|
        invariant |open| == |old(sessions)| && RevokeAll(open, ids[k..]) == RevokeAll(old(sessions), ids)
      {
        assert ids[k..][1..] == ids[k + 1..];
        open := open[ids[k] := open[ids[k]].(revoked := true)];
      }
      sessions := open;
    }

    method CreateLimitedSession(document: Session, limit: nat, now: int) returns (removed: nat)
      requires limit >= 1
      modifies this
      ensures invitations == old(invitations) && sessions == CreateLimited(old(sessions), document, limit, now)
      ensures removed == Excess(|ActiveIds(old(sessions), document.invitation, now)|, limit)
    {
      var active := Active(sessions, document.invitation, now, false);
      removed := Excess(|active|, limit);
      RevokeEach(active[..removed]);
      sessions := sessions + [document];
    }

    method CountActiveSessions(invitation: nat, now: int) returns (count: nat)
      ensures count == |ActiveIds(sessions, invitation, now)|
    {
      var active := ActiveList(sessions, invitation, now);
      assert |multiset(active)| == |active|;
      count := |active|;
    }

    method TrimActiveSessions(invitation: nat, limit: nat, now: int) returns (removed: nat)
      modifies this
      ensures invitations == old(invitations) && sessions == Trim(old(sessions), invitation, limit, now)
      ensures var active := |ActiveIds(old(sessions), invitation, now)|;
              removed == if active <= limit then 0 else active - limit
    {
      var active := Active(sessions, invitation, now, true);
      var surplus := if |active| <= limit then [] else active[limit..];
      removed := |surplus|;
      RevokeEach(surplus);
    }

    method TerminateSessions(invitation: nat) returns (count: nat)
      modifies this
      ensures invitations == old(invitations) && sessions == Terminate(old(sessions), invitation)
      ensures count == CountOpen(old(sessions), invitation)
    {
      var open := sessions;
      count := 0;
      for k := 0 to |open|
        invariant |open| == |old(sessions)| && count == CountOpen(old(sessions)[..k], invitation)
        invariant forall i :: 0 <= i < k ==>
                    open[i] == if old(sessions)[i].invitation == invitation
                               then old(sessions)[i].(revoked := true)
                               else old(sessions)[i]
        invariant forall i :: k <= i < |open| ==> open[i] == old(sessions)[i]
      {
        assert old(sessions)[..k + 1][..k] == old(sessions)[..k];
        if open[k].invitation == invitation && !open[k].revoked {
          open := open[k := open[k].(revoked := true)];
          count := count + 1;
        }
      }
      assert open == Terminate(old(sessions), invitation);
      assert old(sessions)[..|open|] == old(sessions);
      sessions := open;
    }

    method TouchSession(id: nat, lastActivity: int, idleExpires: int) returns (touched: Option<Session>)
      modifies this
      ensures invitations == old(invitations)
      ensures sessions == if id < |old(sessions)| && !old(sessions)[id].revoked
                          then old(sessions)[id := old(sessions)[id].(lastActivity := lastActivity,
                                                                      idleExpires := idleExpires)]
                          else old(sessions)
      ensures touched == if id < |old(sessions)| && !old(sessions)[id].revoked then Some(sessions[id]) else None
    {
      if id >= |sessions| || sessions[id].revoked {
        return None;
      }
      sessions := sessions[id := sessions[id].(lastActivity := lastActivity, idleExpires := idleExpires)];
      return Some(sessions[id]);
    }

    method RevokeSession(id: nat) returns (revoked: bool)
      modifies this
      ensures invitations == old(invitations) && (revoked <==> id < |old(sessions)|)
      ensures sessions == if id < |old(sessions)|
                          then old(sessions)[id := old(sessions)[id].(revoked := true)]
                          else old(sessions)
    {
      if id >= |sessions| {
        return false;
      }
      sessions := sessions[id := sessions[id].(revoked := true)];
      return true;
    }
  }

  // ---------------------------------------------------------------- counting

  lemma {:induction false} SubsetCounts(a: set<nat>, b: set<nat>)
    requires a <= b
    ensures |a| <= |b| && |b - a| == |b| - |a|
  {
    if a == {} {
      assert b - a == b;
    } else {
      var x :| x in a;
      SubsetCounts(a - {x}, b - {x});
      assert (b - {x}) - (a - {x}) == b - a;
    }
  }

  /** A part of a listing of a set, as a set. */
  lemma PartOfSet(ids: seq<nat>, whole: set<nat>) returns (part: set<nat>)
    requires multiset(ids) <= multiset(whole)
    ensures part <= whole && |part| == |ids| && forall i: nat :: i in part <==> i in ids
  {
    part := set i: nat | i in ids;
    forall i: nat
      ensures multiset(part)[i] == multiset(ids)[i]
    {
      assert i in ids <==> i in multiset(ids);
      assert multiset(ids)[i] <= multiset(whole)[i] <= 1;
    }
    assert multiset(part) == multiset(ids);
    assert |multiset(ids)| == |ids|;
    forall i | i in part
      ensures i in whole
    {
      assert i in multiset(ids);
    }
  }

  /** Revoking active sessions takes exactly these from the active ones. */
  lemma RevokedCounts(sessions: Sessions, ids: seq<nat>, invitation: nat, now: int)
    requires Below(ids, |sessions|) && multiset(ids) <= multiset(ActiveIds(sessions, invitation, now))
    ensures |ActiveIds(RevokeAll(sessions, ids), invitation, now)| == |ActiveIds(sessions, invitation, now)| - |ids|
    ensures forall other :: other != invitation ==>
              ActiveIds(RevokeAll(sessions, ids), other, now) == ActiveIds(sessions, other, now)
  {
    hide RevokeAll;
    var part := PartOfSet(ids, ActiveIds(sessions, invitation, now));
    SubsetCounts(part, ActiveIds(sessions, invitation, now));
    assert ActiveIds(RevokeAll(sessions, ids), invitation, now) == ActiveIds(sessions, invitation, now) - part;
    forall other | other != invitation
      ensures ActiveIds(RevokeAll(sessions, ids), other, now) == ActiveIds(sessions, other, now)
    {
    }
  }

  /** Both operations revoke part of the active sessions. */
  lemma PartOfActive(active: seq<nat>, cut: nat)
    requires cut <= |active|
    ensures multiset(active[..cut]) <= multiset(active) && multiset(active[cut..]) <= multiset(active)
  {
    assert active == active[..cut] + active[cut..];
  }

  /** A new session leaves at most limit - 1 older ones, and no other invitation's are touched. */
  lemma CreateLimitedCounts(sessions: Sessions, document: Session, limit: nat, now: int)
    requires limit >= 1
    ensures var after := CreateLimited(sessions, document, limit, now); var invitation := document.invitation;
            && |ActiveIds(after, invitation, now)|
                 == MinInt(|ActiveIds(sessions, invitation, now)|, limit - 1) + (if document.Active(now) then 1 else 0)
            && forall other :: other != invitation ==> ActiveIds(after, other, now) == ActiveIds(sessions, other, now)
  {
    hide Active, RevokeAll;
    var invitation := document.invitation;
    var active := Active(sessions, invitation, now, false);
    PartOfActive(active, Excess(|active|, limit));
    var replaced := Replaced(sessions, invitation, limit, now);
    var kept := RevokeAll(sessions, replaced);
    RevokedCounts(sessions, replaced, invitation, now);
    var after := kept + [document];
    assert ActiveIds(after, invitation, now)
        == if document.Active(now)
           then ActiveIds(kept, invitation, now) + {|kept|}
           else ActiveIds(kept, invitation, now);
    forall other | other != invitation
      ensures ActiveIds(after, other, now) == ActiveIds(sessions, other, now)
    {
      assert ActiveIds(after, other, now) == ActiveIds(kept, other, now);
    }
  }

  lemma ActiveIsInOrder(sessions: Sessions, invitation: nat, now: int, reversed: bool)
    ensures InOrder(sessions, Active(sessions, invitation, now, reversed), reversed)
  {
    SortIsInOrder(sessions, ActiveList(sessions, invitation, now), reversed);
  }

  /** Whatever a new session replaces is at least as old as whatever it leaves. */
  lemma CreateLimitedEvictsOldest(sessions: Sessions, document: Session, limit: nat, now: int, evicted: nat, kept: nat)
    requires limit >= 1 && evicted < |sessions| && kept < |sessions|
    requires evicted in ActiveIds(sessions, document.invitation, now)
             && kept in ActiveIds(sessions, document.invitation, now)
    requires var after := CreateLimited(sessions, document, limit, now); after[evicted].revoked && !after[kept].revoked
    ensures sessions[evicted].created <= sessions[kept].created
  {
    hide Active, RevokeAll;
    var active := Active(sessions, document.invitation, now, false);
    ActiveIsInOrder(sessions, document.invitation, now, false);
    var replaced := Replaced(sessions, document.invitation, limit, now);
    assert kept in multiset(active);
    var j :| 0 <= j < |active| && active[j] == kept;
    var cut := Excess(|active|, limit);
    assert forall k :: 0 <= k < cut ==> active[..cut][k] in replaced;
    assert evicted in replaced && kept !in replaced;
    var e :| 0 <= e < |replaced| && replaced[e] == evicted;
    assert active[e] == evicted;
  }

  lemma TrimCounts(sessions: Sessions, invitation: nat, limit: nat, now: int)
    ensures var after := Trim(sessions, invitation, limit, now);
            && |ActiveIds(after, invitation, now)| == MinInt(|ActiveIds(sessions, invitation, now)|, limit)
            && forall other :: other != invitation ==> ActiveIds(after, other, now) == ActiveIds(sessions, other, now)
  {
    hide Active, RevokeAll;
    var active := Active(sessions, invitation, now, true);
    PartOfActive(active, MinInt(|active|, limit));
    RevokedCounts(sessions, Surplus(sessions, invitation, limit, now), invitation, now);
  }

  lemma TrimEvictsOldest(sessions: Sessions, invitation: nat, limit: nat, now: int, evicted: nat, kept: nat)
    requires evicted in ActiveIds(sessions, invitation, now) && kept in ActiveIds(sessions, invitation, now)
    requires var after := Trim(sessions, invitation, limit, now); after[evicted].revoked && !after[kept].revoked
    ensures sessions[evicted].created <= sessions[kept].created
  {
    hide Active, RevokeAll;
    var active := Active(sessions, invitation, now, true);
    ActiveIsInOrder(sessions, invitation, now, true);
    assert kept in multiset(active);
    var surplus := Surplus(sessions, invitation, limit, now);
    var j :| 0 <= j < |active| && active[j] == kept;
    assert forall k :: 0 <= k < |surplus| ==> surplus[k] in surplus;
    assert evicted in surplus && kept !in surplus;
    var e :| 0 <= e < |surplus| && surplus[e] == evicted;
    assert active[limit + e] == evicted;
  }

  /** Active sessions only expire as time passes. */
  lemma ActiveFades(sessions: Sessions, invitation: nat, now: int, later: int)
    requires now <= later
    ensures |ActiveIds(sessions, invitation, later)| <= |ActiveIds(sessions, invitation, now)|
  {
    SubsetCounts(ActiveIds(sessions, invitation, later), ActiveIds(sessions, invitation, now));
  }

  /** A claim succeeds only on a pending invitation with its current token, and then no claim of the
      same invitation succeeds until it is given a new link. */
  lemma ClaimNeedsCurrentToken(invitations: Invitations, id: nat, expected: nat, now: int, subject: int, email: int,
                               unseen: nat, again: nat, later: int)
    requires Claimable(invitations, id, expected, now)
    ensures var after := Claim(invitations, id, expected, now, subject, email, unseen);
            after[id].status == Claimed && !Claimable(after, id, again, later)
  {
  }
}
