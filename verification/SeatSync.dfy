/**
 * The seat count a subscription is billed for, and the service calls that follow each membership
 * change with a sync. Reads, Stripe and writes may fail; each call takes their outcomes as parameters.
 * Overlapping calls are in SeatSyncProtocol.
 */
module SeatSync {
  import opened Common
  import opened Seats

  /**
   * Whether there is a Stripe client, and whether each read, the Stripe call and the upsert succeed; and
   * the delete that undoes an addition, if it is needed.
   */
  datatype Sync = Sync(client: bool, subRead: bool, usageRead: bool, stripe: bool, upsert: bool, undo: bool)

  predicate Billable(sub: Option<Subscription>) {
    sub.Some? && sub.value.stripeId != "" && sub.value.paidActive && sub.value.pro
  }

  predicate Succeeds(sync: Sync) {
    sync.client && sync.subRead && sync.usageRead && sync.stripe && sync.upsert
  }

  /** Without a billed subscription there is nothing to count or to write. */
  predicate SyncOk(o: Org, sync: Sync) {
    if Billable(o.sub) then Succeeds(sync) else sync.client && sync.subRead
  }

  // ----- By the fields of the subscription -----

  /** A paid pro plan that Stripe knows; only such a one is billed by the seat. */
  ghost predicate BilledBySeat(sub: Option<Subscription>) {
    sub.Some? && sub.value.stripeId != "" && sub.value.paidActive && sub.value.pro
  }

  /** What each call needs to succeed: the client and the plan always, the rest only for a plan billed by the seat. */
  ghost predicate Reported(sub: Option<Subscription>, sync: Sync, ok: bool) {
    ok <==> sync.client && sync.subRead && (BilledBySeat(sub) ==> sync.usageRead && sync.stripe && sync.upsert)
  }

  /** The seat count becomes the members, or one, when all that succeeds; no other field of the plan changes. */
  ghost predicate Recounted(sub: Option<Subscription>, after: Option<Subscription>, members: nat, ok: bool) {
    && (ok && BilledBySeat(sub) ==> after == Some(Subscription(sub.value.stripeId, sub.value.pro, sub.value.paidActive, Max(members, 1))))
    && (!ok || !BilledBySeat(sub) ==> after == sub)
  }

  function AfterSync(o: Org, sync: Sync): Org {
    if Billable(o.sub) && Succeeds(sync)
    then o.(sub := Some(o.sub.value.(seatCount := Max(|o.members|, 1))))
    else o
  }

  function AfterAdd(o: Org, user: User, sync: Sync): Org {
    if user in o.members || |o.members| >= SubscribedSeats(o.sub) then o
    else
      var added := o.(members := o.members + {user});
      if SyncOk(added, sync) then AfterSync(added, sync) else if sync.undo then o else added
  }

  predicate AddOk(o: Org, user: User, sync: Sync) {
    user !in o.members && |o.members| < SubscribedSeats(o.sub) && SyncOk(o.(members := o.members + {user}), sync)
  }

  predicate RemoveOk(o: Org, user: User, sync: Sync) {
    user in o.members && SyncOk(o.(members := o.members - {user}), sync)
  }

  function AfterRemove(o: Org, user: User, sync: Sync): Org {
    if user in o.members then AfterSync(o.(members := o.members - {user}), sync) else o
  }

  /** The user accepted this invitation before: the call is a retry. */
  predicate AcceptedBefore(o: Org, id: InvId, user: User) {
    id in o.invites && o.invites[id].status == Accepted && o.invites[id].acceptedBy == Some(user)
  }

  predicate Admits(o: Org, id: InvId, user: User, now: int) {
    id in LiveIds(o.invites, now) && user !in o.members && |o.members| < SubscribedSeats(o.sub)
  }

  function Admitted(o: Org, id: InvId, user: User): Org
    requires id in o.invites
  {
    Org(o.members + {user}, o.invites[id := o.invites[id].(status := Accepted, acceptedBy := Some(user))], o.sub)
  }

  /**
   * A failed sync after an acceptance is reported, but the new member stays. A retry by a member only
   * syncs again, and that sync's outcome is ignored.
   */
  function AfterAccept(o: Org, id: InvId, user: User, now: int, sync: Sync): Org {
    if AcceptedBefore(o, id, user) && user in o.members then AfterSync(o, sync)
    else if Admits(o, id, user, now) then AfterSync(Admitted(o, id, user), sync)
    else o
  }

  predicate AcceptOk(o: Org, id: InvId, user: User, now: int, sync: Sync) {
    || (AcceptedBefore(o, id, user) && user in o.members)
    || (Admits(o, id, user, now) && SyncOk(Admitted(o, id, user), sync))
  }

  /** The row was accepted by this member before. */
  ghost predicate Repeated(o: Org, row: Invitation, user: User) {
    row.status == Accepted && row.acceptedBy == Some(user) && user in o.members
  }

  /** The row is live, the user is new and a seat is free. */
  ghost predicate Seated(o: Org, row: Invitation, user: User, now: int) {
    Holds(row, now) && user !in o.members && !NoSeatLeft(o.sub, 0, |o.members|)
  }

  /** A retry only syncs and succeeds whatever comes of it; a new member stays whatever comes of the sync. */
  ghost predicate AcceptedAs(o: Org, t: Org, id: InvId, user: User, now: int, sync: Sync, ok: bool)
    requires id in o.invites
  {
    var row := o.invites[id];
    && (Repeated(o, row, user) ==>
          && ok && t.members == o.members && t.invites == o.invites
          && (Reported(o.sub, sync, true) ==> Recounted(o.sub, t.sub, |o.members|, true))
          && (Reported(o.sub, sync, false) ==> t.sub == o.sub))
    && (Seated(o, row, user, now) ==>
          && Reported(o.sub, sync, ok) && Recounted(o.sub, t.sub, |o.members| + 1, ok)
          && t.members == o.members + {user}
          && t.invites == o.invites[id := row.(status := Accepted, acceptedBy := Some(user))])
    && (!Repeated(o, row, user) && !Seated(o, row, user, now) ==> !ok && t == o)
  }

  lemma AcceptsAs(o: Org, id: InvId, user: User, now: int, sync: Sync)
    requires id in o.invites
    ensures AcceptedAs(o, AfterAccept(o, id, user, now, sync), id, user, now, sync, AcceptOk(o, id, user, now, sync))
  {
    LimitByFields(o.sub, 0, |o.members|);
    assert user !in o.members ==> |o.members + {user}| == |o.members| + 1;
  }

  /** The unique index on the token. */
  ghost predicate UniqueTokens(invites: map<InvId, Invitation>) {
    forall x, y | x in invites && y in invites && invites[x].token == invites[y].token :: x == y
  }

  /** The organization service over one organization's rows. */
  class OrgService {
    const store: InvitationStore

    constructor (store: InvitationStore)
      ensures this.store == store
    {
      this.store := store;
    }

    method SyncSeatCountWithStripe(sync: Sync) returns (ok: bool)
      modifies store`sub
      ensures Reported(old(store.sub), sync, ok) && Recounted(old(store.sub), store.sub, |store.members|, ok)
      ensures ok == SyncOk(old(store.State()), sync)
      ensures store.State() == AfterSync(old(store.State()), sync)
    {
      if !sync.client || !sync.subRead { return false; }
      if store.sub.None? || store.sub.value.stripeId == "" || !store.sub.value.paidActive || !store.sub.value.pro {
        return true;
      }
      if !sync.usageRead { return false; }
      var usage := |store.members|;
      if usage < 1 { usage := 1; }
      if !sync.stripe { return false; }
      if !sync.upsert { return false; }
      store.sub := Some(store.sub.value.(seatCount := usage));
      return true;
    }

    /** The insert is compensated by a delete when the sync fails; the delete's own failure is ignored. */
    method AddMember(user: User, sync: Sync) returns (ok: bool)
      modifies store
      ensures store.invites == old(store.invites)
      ensures user in old(store.members) || NoSeatLeft(old(store.sub), 0, |old(store.members)|) ==>
        !ok && store.members == old(store.members) && store.sub == old(store.sub)
      ensures user !in old(store.members) && !NoSeatLeft(old(store.sub), 0, |old(store.members)|) ==>
        && Reported(old(store.sub), sync, ok) && Recounted(old(store.sub), store.sub, |old(store.members)| + 1, ok)
        && store.members == if ok || !sync.undo then old(store.members) + {user} else old(store.members)
      ensures store.State() == AfterAdd(old(store.State()), user, sync)
      ensures ok == AddOk(old(store.State()), user, sync)
    {
      if user in store.members { return false; }
      LimitByFields(store.sub, 0, |store.members|);
      var seatLimit := SubscribedSeats(store.sub);
      if |store.members| >= seatLimit { return false; }
      ghost var was := store.members;
      var added := store.AddMember(user);
      ok := SyncSeatCountWithStripe(sync);
      if !ok && sync.undo {
        var _ := store.RemoveMember(user);
        assert store.members == was;
      }
    }

    method RemoveMember(user: User, sync: Sync) returns (ok: bool)
      modifies store
      ensures store.invites == old(store.invites) && store.members == old(store.members) - {user}
      ensures user !in old(store.members) ==> !ok && store.sub == old(store.sub)
      ensures user in old(store.members) ==>
        Reported(old(store.sub), sync, ok) && Recounted(old(store.sub), store.sub, |store.members|, ok)
      ensures store.State() == AfterRemove(old(store.State()), user, sync)
      ensures ok == RemoveOk(old(store.State()), user, sync)
    {
      var removed := store.RemoveMember(user);
      if removed != Done { return false; }
      ok := SyncSeatCountWithStripe(sync);
    }

    /** By token; an unknown token is an error, and a token names one invitation. */
    method AcceptInvitation(token: string, user: User, now: int, sync: Sync) returns (ok: bool)
      requires UniqueTokens(store.invites)
      modifies store
      ensures TokenFree(old(store.invites), token) ==> !ok && store.State() == old(store.State())
      ensures forall id | id in old(store.invites) && old(store.invites)[id].token == token ::
        && AcceptedAs(old(store.State()), store.State(), id, user, now, sync, ok)
        && store.State() == AfterAccept(old(store.State()), id, user, now, sync)
        && ok == AcceptOk(old(store.State()), id, user, now, sync)
    {
      if forall x :: x in store.invites ==> store.invites[x].token != token { return false; }
      var id :| id in store.invites && store.invites[id].token == token;
      AcceptsAs(store.State(), id, user, now, sync);
      ok := AcceptFound(id, user, now, sync);
    }

    method AcceptFound(id: InvId, user: User, now: int, sync: Sync) returns (ok: bool)
      requires id in store.invites
      modifies store
      ensures store.State() == AfterAccept(old(store.State()), id, user, now, sync)
      ensures ok == AcceptOk(old(store.State()), id, user, now, sync)
    {
      var invitation := store.invites[id];
      if invitation.status == Accepted {
        if invitation.acceptedBy != Some(user) || user !in store.members { return false; }
        var _ := SyncSeatCountWithStripe(sync);
        return true;
      }
      if user in store.members || |store.members| >= SubscribedSeats(store.sub) { return false; }
      var accepted := store.Accept(id, invitation.token, user, 0, now);
      if accepted != Done { return false; }
      ok := SyncSeatCountWithStripe(sync);
    }
  }

  datatype Call =
    | Add(user: User, sync: Sync)
    | Remove(user: User, sync: Sync)
    | AcceptCall(id: InvId, user: User, now: int, sync: Sync)

  function Step(o: Org, c: Call): Org {
    match c
    case Add(user, sync) => AfterAdd(o, user, sync)
    case Remove(user, sync) => AfterRemove(o, user, sync)
    case AcceptCall(id, user, now, sync) => AfterAccept(o, id, user, now, sync)
  }

  function Run(o: Org, calls: seq<Call>): Org
    decreases |calls|
  {
    if calls == [] then o else Run(Step(o, calls[0]), calls[1..])
  }

  const SYNCED := Sync(true, true, true, true, true, true)

  ghost predicate AllSyncsSucceed(calls: seq<Call>) {
    forall i | 0 <= i < |calls| :: Succeeds(calls[i].sync)
  }

  /**
   * Without webhooks, and whichever syncs fail, no sequence of calls ever raises the seat limit or lets
   * the members outgrow it.
   */
  lemma {:induction false} SeatsOnlyShrink(o: Org, calls: seq<Call>)
    requires |o.members| <= SubscribedSeats(o.sub)
    ensures |Run(o, calls).members| <= SubscribedSeats(Run(o, calls).sub) <= SubscribedSeats(o.sub)
    decreases |calls|
  {
    if calls == [] {
    } else {
      StepOnlyShrinks(o, calls[0]);
      SeatsOnlyShrink(Step(o, calls[0]), calls[1..]);
    }
  }

  /** Members within their seats, and no more seats than before. */
  ghost predicate Shrinks(o: Org, t: Org) {
    |t.members| <= SubscribedSeats(t.sub) <= SubscribedSeats(o.sub)
  }

  lemma SyncOnlyShrinks(o: Org, sync: Sync)
    requires |o.members| <= SubscribedSeats(o.sub)
    ensures Shrinks(o, AfterSync(o, sync))
  {
  }

  lemma AddOnlyShrinks(o: Org, user: User, sync: Sync)
    requires |o.members| <= SubscribedSeats(o.sub)
    ensures Shrinks(o, AfterAdd(o, user, sync))
  {
    if user !in o.members && |o.members| < SubscribedSeats(o.sub) {
      SyncOnlyShrinks(o.(members := o.members + {user}), sync);
    }
  }

  lemma RemoveOnlyShrinks(o: Org, user: User, sync: Sync)
    requires |o.members| <= SubscribedSeats(o.sub)
    ensures Shrinks(o, AfterRemove(o, user, sync))
  {
    if user in o.members {
      SubsetCard(o.members - {user}, o.members);
      SyncOnlyShrinks(o.(members := o.members - {user}), sync);
    }
  }

  lemma AcceptOnlyShrinks(o: Org, id: InvId, user: User, now: int, sync: Sync)
    requires |o.members| <= SubscribedSeats(o.sub)
    ensures Shrinks(o, AfterAccept(o, id, user, now, sync))
  {
    SyncOnlyShrinks(o, sync);
    if Admits(o, id, user, now) { SyncOnlyShrinks(Admitted(o, id, user), sync); }
  }

  lemma StepOnlyShrinks(o: Org, c: Call)
    requires |o.members| <= SubscribedSeats(o.sub)
    ensures Shrinks(o, Step(o, c))
  {
    match c {
      case Add(user, sync) => AddOnlyShrinks(o, user, sync);
      case Remove(user, sync) => RemoveOnlyShrinks(o, user, sync);
      case AcceptCall(id, user, now, sync) => AcceptOnlyShrinks(o, id, user, now, sync);
    }
  }

  /** On a billed subscription whose seat count is the synced one. */
  ghost predicate Synced(o: Org) {
    Billable(o.sub) && o.sub.value.seatCount == Max(|o.members|, 1)
  }

  /** A nonempty synced organization admits nobody, by either way in, and stays synced. */
  lemma SyncedAdmitsNobody(o: Org, c: Call)
    requires Synced(o) && Succeeds(c.sync)
    ensures Synced(Step(o, c))
    ensures o.members != {} ==> Step(o, c).members <= o.members
    ensures |Step(o, c).members| <= Max(|o.members|, 1)
  {
    if c.Remove? {
      SubsetCard(o.members - {c.user}, o.members);
    }
  }

  /**
   * From any billed organization, once one call has synced and while syncs keep succeeding, the seat
   * count is exactly the members or one, and membership never grows past where it stood.
   */
  lemma {:induction false} SyncedStaysFull(o: Org, calls: seq<Call>)
    requires Billable(o.sub) && AllSyncsSucceed(calls)
    ensures var first := AfterSync(o, SYNCED);
      Synced(Run(first, calls)) && |Run(first, calls).members| <= Max(|o.members|, 1)
    decreases |calls|
  {
    var first := AfterSync(o, SYNCED);
    if calls == [] {
    } else {
      var t := Step(first, calls[0]);
      SyncedAdmitsNobody(first, calls[0]);
      SyncedStaysFull(t, calls[1..]);
      assert AfterSync(t, SYNCED) == t;
    }
  }

  /**
   * What a sync does to reserved seats: right after it, every live invitation of a nonempty billed
   * organization is refused, however many seats were free before.
   */
  lemma SyncVoidsReservations(o: Org, id: InvId, user: User, now: int, sync: Sync)
    requires Billable(o.sub) && o.members != {}
    ensures var synced := AfterSync(o, SYNCED);
      AfterAccept(synced, id, user, now, sync) == synced
  {
  }
}
