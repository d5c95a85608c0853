/**
 * Seats and invitations of one organization: the rows, and what each store transaction does to them
 * when it runs alone. Interleavings of their statements are in SeatProtocol.
 */
module Seats {
  import opened Common

  type User = nat
  type InvId = nat

  datatype Status = Pending | Accepted | Revoked

  datatype Invitation = Invitation(email: string, token: string, status: Status, expiresAt: int, acceptedBy: Option<User>)

  datatype Subscription = Subscription(stripeId: string, pro: bool, paidActive: bool, seatCount: int)

  datatype Org = Org(members: set<User>, invites: map<InvId, Invitation>, sub: Option<Subscription>)

  /** The CASE expression over the latest subscription; no subscription, or an unpaid one, is one seat. */
  function SubscribedSeats(sub: Option<Subscription>): int {
    match sub
    case None => 1
    case Some(p) => if p.pro && p.paidActive then Max(p.seatCount, 1) else 1
  }

  function ResolveSeatLimit(sub: Option<Subscription>, explicitLimit: int): int {
    if explicitLimit > 0 then explicitLimit else SubscribedSeats(sub)
  }

  /**
   * By the fields of the subscription: `taken` seats leave none. An explicit limit goes first; only a pro
   * plan that is paid for has more than one seat.
   */
  ghost predicate NoSeatLeft(sub: Option<Subscription>, explicitLimit: int, taken: nat) {
    && (explicitLimit > 0 ==> taken >= explicitLimit)
    && (explicitLimit <= 0 ==> taken >= 1)
    && (explicitLimit <= 0 && sub.Some? && sub.value.pro && sub.value.paidActive ==> taken >= sub.value.seatCount)
  }

  lemma LimitByFields(sub: Option<Subscription>, explicitLimit: int, taken: nat)
    ensures taken >= ResolveSeatLimit(sub, explicitLimit) <==> NoSeatLeft(sub, explicitLimit, taken)
    ensures taken >= SubscribedSeats(sub) <==> NoSeatLeft(sub, 0, taken)
  {
  }

  /** All pending rows, expired ones included. */
  function PendingIds(invites: map<InvId, Invitation>): set<InvId> {
    set x | x in invites && invites[x].status == Pending
  }

  /** Pending rows whose deadline has passed at `now`. */
  function StaleIds(invites: map<InvId, Invitation>, now: int): set<InvId> {
    set x | x in invites && invites[x].status == Pending && invites[x].expiresAt <= now
  }

  function LiveIds(invites: map<InvId, Invitation>, now: int): set<InvId> {
    set x | x in invites && invites[x].status == Pending && invites[x].expiresAt > now
  }

  function RevokeAll(invites: map<InvId, Invitation>, ids: set<InvId>): map<InvId, Invitation> {
    map x | x in invites :: if x in ids then invites[x].(status := Revoked) else invites[x]
  }

  /** The unique indexes: one pending row per email, and no token twice. */
  ghost predicate Insertable(invites: map<InvId, Invitation>, email: string, token: string) {
    && (forall x | x in PendingIds(invites) :: invites[x].email != email)
    && TokenFree(invites, token)
  }

  ghost predicate TokenFree(invites: map<InvId, Invitation>, token: string) {
    forall x | x in invites :: invites[x].token != token
  }

  function Booked(o: Org): int {
    |o.members| + |PendingIds(o.invites)|
  }

  /** A row that reserves a seat at `now`. */
  ghost predicate Holds(row: Invitation, now: int) {
    row.status == Pending && now < row.expiresAt
  }

  lemma LiveHold(invites: map<InvId, Invitation>, now: int)
    ensures LiveIds(invites, now) == set x | x in invites && Holds(invites[x], now)
  {
  }

  /** The unique indexes: a token is used once, and an address by one row that is pending and not stale. */
  ghost predicate Collides(invites: map<InvId, Invitation>, email: string, token: string, now: int) {
    exists x :: x in invites && (invites[x].token == token || (Holds(invites[x], now) && invites[x].email == email))
  }

  lemma CollisionAfter(invites: map<InvId, Invitation>, email: string, token: string, now: int)
    ensures var after := RevokeAll(invites, StaleIds(invites, now));
      (exists x :: x in after && (after[x].token == token || (after[x].status == Pending && after[x].email == email)))
      <==> Collides(invites, email, token, now)
  {
    var after := RevokeAll(invites, StaleIds(invites, now));
    assert forall x | x in invites :: x in after && after[x].token == invites[x].token && after[x].email == invites[x].email;
  }

  /** Stale rows are revoked, one row is new, and the rest is as it was. */
  ghost predicate Adds(was: map<InvId, Invitation>, rows: map<InvId, Invitation>, id: InvId, row: Invitation, now: int) {
    && rows.Keys == was.Keys + {id} && rows[id] == row
    && (forall x | x in was && x != id && Holds(was[x], now) :: rows[x] == was[x])
    && (forall x | x in was && x != id && was[x].status != Pending :: rows[x] == was[x])
    && (forall x | x in was && x != id && was[x].status == Pending && was[x].expiresAt <= now :: rows[x] == was[x].(status := Revoked))
  }

  lemma OneMorePending(invites: map<InvId, Invitation>, id: InvId, row: Invitation)
    requires id !in invites && row.status == Pending
    ensures |PendingIds(invites[id := row])| == |PendingIds(invites)| + 1
  {
    assert PendingIds(invites[id := row]) == PendingIds(invites) + {id};
  }

  datatype Outcome = Done | SeatLimit | Conflict | NotFound

  /** The rows of one organization and the store's transactions over them. */
  class InvitationStore {
    var members: set<User>
    var invites: map<InvId, Invitation>
    var sub: Option<Subscription>

    ghost function State(): Org
      reads this
    {
      Org(members, invites, sub)
    }

    constructor (owner: User)
      ensures State() == Org({owner}, map[], None)
    {
      members, invites, sub := {owner}, map[], None;
    }

    /**
     * Revokes what has expired, counts members plus live invitations, and inserts only below the limit.
     * A refusal rolls the revocations back too.
     */
    method Create(id: InvId, email: string, token: string, expiresAt: int, explicitLimit: int, now: int) returns (r: Outcome)
      requires id !in invites
      modifies this`invites
      ensures r == SeatLimit <==>
        NoSeatLeft(sub, explicitLimit, |members| + |set x | x in old(invites) && Holds(old(invites)[x], now)|)
      ensures r == Conflict <==> r != SeatLimit && Collides(old(invites), email, token, now)
      ensures r == Done <==> r != SeatLimit && r != Conflict
      ensures r == Done ==> Adds(old(invites), invites, id, Invitation(email, token, Pending, expiresAt, None), now)
      ensures r == Done ==>
        invites == RevokeAll(old(invites), StaleIds(old(invites), now))[id := Invitation(email, token, Pending, expiresAt, None)]
      ensures r != Done ==> invites == old(invites)
      ensures r == Done && explicitLimit <= 0 ==> Booked(State()) <= SubscribedSeats(sub)
    {
      var after := RevokeAll(invites, StaleIds(invites, now));
      LiveAfterExpiry(invites, now);
      var seatLimit := ResolveSeatLimit(sub, explicitLimit);
      var reserved := |members| + |LiveIds(after, now)|;
      LiveHold(invites, now);
      LimitByFields(sub, explicitLimit, reserved);
      if reserved >= seatLimit { return SeatLimit; }
      CollisionAfter(invites, email, token, now);
      if exists x :: x in after && (after[x].token == token || (after[x].status == Pending && after[x].email == email)) {
        return Conflict;
      }
      OneMorePending(after, id, Invitation(email, token, Pending, expiresAt, None));
      invites := after[id := Invitation(email, token, Pending, expiresAt, None)];
      return Done;
    }

    method Refresh(id: InvId, token: string, expiresAt: int) returns (r: Outcome)
      modifies this`invites
      ensures r == NotFound <==> !(id in old(invites) && old(invites)[id].status == Pending)
      ensures r == Done ==>
        && (forall x | x in old(invites) && x != id :: old(invites)[x].token != token)
        && invites == old(invites)[id := old(invites)[id].(token := token, expiresAt := expiresAt)]
        && PendingIds(invites) == PendingIds(old(invites))
      ensures r != Done ==> r in {NotFound, Conflict} && invites == old(invites)
      ensures r == Conflict ==> exists x :: x in old(invites) && x != id && old(invites)[x].token == token
    {
      if id !in invites || invites[id].status != Pending { return NotFound; }
      if exists x :: x in invites && x != id && invites[x].token == token { return Conflict; }
      invites := invites[id := invites[id].(token := token, expiresAt := expiresAt)];
      return Done;
    }

    method Revoke(id: InvId) returns (r: Outcome)
      modifies this`invites
      ensures r == if id in old(invites) && old(invites)[id].status == Pending then Done else NotFound
      ensures invites == if r == Done then old(invites)[id := old(invites)[id].(status := Revoked)] else old(invites)
      ensures PendingIds(invites) == PendingIds(old(invites)) - {id}
    {
      if id !in invites || invites[id].status != Pending { return NotFound; }
      invites := invites[id := invites[id].(status := Revoked)];
      return Done;
    }

    /** A seat freed by the invitation is taken by the member, so the booked total stays what it was. */
    method Accept(id: InvId, token: string, user: User, explicitLimit: int, now: int) returns (r: Outcome)
      modifies this`members, this`invites
      ensures r == NotFound <==> !(id in old(invites) && old(invites)[id].token == token)
      ensures r == SeatLimit <==>
        r != NotFound && Holds(old(invites)[id], now) && NoSeatLeft(sub, explicitLimit, |old(members)|)
      ensures r == Conflict <==>
        && r != NotFound
        && (!Holds(old(invites)[id], now) || (!NoSeatLeft(sub, explicitLimit, |old(members)|) && user in old(members)))
      ensures r == Done <==> r != NotFound && r != SeatLimit && r != Conflict
      ensures r == Done ==>
        id in LiveIds(old(invites), now) && |old(members)| < ResolveSeatLimit(sub, explicitLimit) && user !in old(members)
      ensures r == Done ==>
        && members == old(members) + {user}
        && invites == old(invites)[id := old(invites)[id].(status := Accepted, acceptedBy := Some(user))]
        && Booked(State()) == old(Booked(State()))
      ensures r != Done ==> members == old(members) && invites == old(invites)
    {
      if id !in invites || invites[id].token != token { return NotFound; }
      if invites[id].status != Pending || invites[id].expiresAt <= now { return Conflict; }
      LimitByFields(sub, explicitLimit, |members|);
      if |members| >= ResolveSeatLimit(sub, explicitLimit) { return SeatLimit; }
      if user in members { return Conflict; }
      ghost var was := PendingIds(invites);
      members := members + {user};
      invites := invites[id := invites[id].(status := Accepted, acceptedBy := Some(user))];
      assert PendingIds(invites) == was - {id};
      return Done;
    }

    method RemoveMember(user: User) returns (r: Outcome)
      modifies this`members
      ensures r == (if user in old(members) then Done else NotFound)
      ensures members == old(members) - {user}
    {
      if user !in members { return NotFound; }
      members := members - {user};
      return Done;
    }

    method AddMember(user: User) returns (r: Outcome)
      modifies this`members
      ensures r == (if user in old(members) then Conflict else Done)
      ensures members == old(members) + {user}
    {
      if user in members { return Conflict; }
      members := members + {user};
      return Done;
    }
  }

  /** After the stale rows are revoked, the live pending rows are all the pending rows. */
  lemma LiveAfterExpiry(invites: map<InvId, Invitation>, now: int)
    ensures var after := RevokeAll(invites, StaleIds(invites, now));
      PendingIds(after) == LiveIds(after, now) == LiveIds(invites, now) == PendingIds(invites) - StaleIds(invites, now)
  {
  }
}
