/**
 * Invitations under concurrency, statement by statement. Create and Accept are transactions that take
 * the organization row lock; Refresh, Revoke, RemoveMember and subscription changes are single
 * statements that do not, and AddMember waits for it through its foreign key. A statement that needs a
 * locked row blocks: its step is not enabled.
 *
 * `now()` in the database is the start of the transaction, so a Create that waited for the lock
 * compares deadlines with a time already past.
 */
module SeatProtocol {
  import opened Common
  import opened Seats

  datatype Tx =
    // CreateOrganizationInvitation
    | CreateLocked(start: int, email: string, token: string, expiresAt: int)
    | CreateExpired(start: int, email: string, token: string, expiresAt: int, stale: set<InvId>, seatLimit: int)
    | CreateCounted(start: int, email: string, token: string, expiresAt: int, stale: set<InvId>)
    // AcceptOrganizationInvitation
    | AcceptHolding(inv: InvId, user: User)
    | AcceptLocked(inv: InvId, user: User)
    | AcceptCounted(inv: InvId, user: User)

  datatype System = System(org: Org, now: int, txs: map<nat, Tx>)

  datatype Action =
    | CreateLock(tx: nat, start: int, email: string, token: string, expiresAt: int)
    | CreateExpire(tx: nat)
    | CreateCount(tx: nat)
    | CreateCommit(tx: nat, id: InvId)
    | AcceptHold(tx: nat, id: InvId, token: string, user: User)
    | AcceptLock(tx: nat)
    | AcceptCount(tx: nat)
    | AcceptCommit(tx: nat)
    | Abort(tx: nat)
    | Refresh(id: InvId, token: string, expiresAt: int)
    | Revoke(id: InvId)
    | RemoveMember(user: User)
    | SetSubscription(sub: Option<Subscription>)
    | AddMember(user: User)
    | Tick(time: int)

  predicate HoldsOrgLock(t: Tx) {
    !t.AcceptHolding?
  }

  /** Invitation rows a transaction has locked. */
  function RowLocks(t: Tx): set<InvId> {
    match t
    case CreateLocked(_, _, _, _) => {}
    case CreateExpired(_, _, _, _, stale, _) => stale
    case CreateCounted(_, _, _, _, stale) => stale
    case AcceptHolding(inv, _) => {inv}
    case AcceptLocked(inv, _) => {inv}
    case AcceptCounted(inv, _) => {inv}
  }

  ghost predicate OrgFree(s: System) {
    forall t | t in s.txs :: !HoldsOrgLock(s.txs[t])
  }

  ghost predicate RowFree(s: System, id: InvId) {
    forall t | t in s.txs :: id !in RowLocks(s.txs[t])
  }

  function Limit(s: System): int { SubscribedSeats(s.org.sub) }

  ghost predicate Enabled(s: System, a: Action) {
    match a
    case CreateLock(tx, start, _, _, _) => tx !in s.txs && OrgFree(s) && start <= s.now
    case CreateExpire(tx) =>
      && tx in s.txs && s.txs[tx].CreateLocked?
      && forall x | x in StaleIds(s.org.invites, s.txs[tx].start) :: RowFree(s, x)
    case CreateCount(tx) =>
      && tx in s.txs && s.txs[tx].CreateExpired?
      && |s.org.members| + |LiveIds(s.org.invites, s.txs[tx].start) - s.txs[tx].stale| < s.txs[tx].seatLimit
    case CreateCommit(tx, id) =>
      && tx in s.txs && s.txs[tx].CreateCounted? && id !in s.org.invites
      && Insertable(RevokeAll(s.org.invites, s.txs[tx].stale), s.txs[tx].email, s.txs[tx].token)
    case AcceptHold(tx, id, token, user) =>
      && tx !in s.txs && id in LiveIds(s.org.invites, s.now) && RowFree(s, id)
      && s.org.invites[id].token == token
    case AcceptLock(tx) => tx in s.txs && s.txs[tx].AcceptHolding? && OrgFree(s)
    case AcceptCount(tx) => tx in s.txs && s.txs[tx].AcceptLocked? && |s.org.members| < Limit(s)
    case AcceptCommit(tx) =>
      && tx in s.txs && s.txs[tx].AcceptCounted?
      && s.txs[tx].inv in PendingIds(s.org.invites) && s.txs[tx].user !in s.org.members
    case Abort(tx) => tx in s.txs
    case Refresh(id, token, _) =>
      id in PendingIds(s.org.invites) && RowFree(s, id) && forall x | x in s.org.invites && x != id :: s.org.invites[x].token != token
    case Revoke(id) => id in PendingIds(s.org.invites) && RowFree(s, id)
    case RemoveMember(user) => user in s.org.members
    case SetSubscription(_) => true
    case AddMember(user) => user !in s.org.members && OrgFree(s)
    case Tick(time) => time >= s.now
  }

  ghost function Apply(s: System, a: Action): System
    requires Enabled(s, a)
  {
    match a
    case CreateLock(tx, start, email, token, expiresAt) =>
      s.(txs := s.txs[tx := CreateLocked(start, email, token, expiresAt)])
    case CreateExpire(tx) =>
      var CreateLocked(start, email, token, expiresAt) := s.txs[tx];
      s.(txs := s.txs[tx := CreateExpired(start, email, token, expiresAt, StaleIds(s.org.invites, start), Limit(s))])
    case CreateCount(tx) =>
      var CreateExpired(start, email, token, expiresAt, stale, _) := s.txs[tx];
      s.(txs := s.txs[tx := CreateCounted(start, email, token, expiresAt, stale)])
    case CreateCommit(tx, id) =>
      var CreateCounted(_, email, token, expiresAt, stale) := s.txs[tx];
      s.(txs := s.txs - {tx},
         org := s.org.(invites := RevokeAll(s.org.invites, stale)[id := Invitation(email, token, Pending, expiresAt, None)]))
    case AcceptHold(tx, id, token, user) => s.(txs := s.txs[tx := AcceptHolding(id, user)])
    case AcceptLock(tx) => s.(txs := s.txs[tx := AcceptLocked(s.txs[tx].inv, s.txs[tx].user)])
    case AcceptCount(tx) => s.(txs := s.txs[tx := AcceptCounted(s.txs[tx].inv, s.txs[tx].user)])
    case AcceptCommit(tx) =>
      var AcceptCounted(inv, user) := s.txs[tx];
      s.(txs := s.txs - {tx},
         org := s.org.(members := s.org.members + {user},
                       invites := s.org.invites[inv := s.org.invites[inv].(status := Accepted, acceptedBy := Some(user))]))
    case Abort(tx) => s.(txs := s.txs - {tx})
    case Refresh(id, token, expiresAt) =>
      s.(org := s.org.(invites := s.org.invites[id := s.org.invites[id].(token := token, expiresAt := expiresAt)]))
    case Revoke(id) => s.(org := s.org.(invites := s.org.invites[id := s.org.invites[id].(status := Revoked)]))
    case RemoveMember(user) => s.(org := s.org.(members := s.org.members - {user}))
    case SetSubscription(sub) => s.(org := s.org.(sub := sub))
    case AddMember(user) => s.(org := s.org.(members := s.org.members + {user}))
    case Tick(time) => s.(now := time)
  }

  /** An open Create that has read its limit, or counted, would still stay within `limit` when it commits. */
  ghost predicate Covered(o: Org, limit: int, t: Tx) {
    && (t.CreateExpired? ==> t.seatLimit <= limit || |o.members| + |PendingIds(o.invites) - t.stale| < limit)
    && (t.CreateCounted? ==> |o.members| + |PendingIds(o.invites) - t.stale| < limit)
  }

  /** The limit covers what is booked and what open transactions are about to book. */
  ghost predicate Covers(s: System, limit: int) {
    Booked(s.org) <= limit && forall t | t in s.txs :: Covered(s.org, limit, s.txs[t])
  }

  /** A deadline later than the start of every Create that has revoked the stale rows and not counted yet. */
  ghost predicate InSight(s: System, expiresAt: int) {
    forall t | t in s.txs && s.txs[t].CreateExpired? :: expiresAt > s.txs[t].start
  }

  /**
   * The hypotheses: a member added directly finds a seat that is not booked, a new subscription covers
   * what is booked and about to be, and a refreshed deadline is in sight of every Create about to count.
   * Any future deadline is (FutureIsInSight), and the service adds a positive time to live.
   */
  ghost predicate Disciplined(s: System, a: Action) {
    match a
    case AddMember(_) => Booked(s.org) < Limit(s)
    case SetSubscription(sub) => Covers(s, SubscribedSeats(sub))
    case Refresh(_, _, expiresAt) => InSight(s, expiresAt)
    case _ => true
  }

  ghost function Exec(s: System, acts: seq<Action>): Option<System>
    decreases |acts|
  {
    if acts == [] then Some(s)
    else if Enabled(s, acts[0]) && Disciplined(s, acts[0]) then Exec(Apply(s, acts[0]), acts[1..])
    else None
  }

  // ----- The invariant -----

  /** What an open transaction may rely on when it goes on. */
  ghost predicate TxInv(o: Org, now: int, t: Tx) {
    match t
    case CreateLocked(start, _, _, _) => start <= now
    case CreateExpired(start, _, _, _, stale, _) =>
      && start <= now && Covered(o, SubscribedSeats(o.sub), t) && stale <= PendingIds(o.invites)
      && forall x | x in PendingIds(o.invites) && x !in stale :: o.invites[x].expiresAt > start
    case CreateCounted(_, _, _, _, stale) => stale <= PendingIds(o.invites) && Covered(o, SubscribedSeats(o.sub), t)
    case AcceptHolding(inv, _) => inv in PendingIds(o.invites)
    case AcceptLocked(inv, _) => inv in PendingIds(o.invites)
    case AcceptCounted(inv, _) => inv in PendingIds(o.invites)
  }

  ghost predicate AllTxInv(o: Org, now: int, txs: map<nat, Tx>) {
    forall t | t in txs :: TxInv(o, now, txs[t])
  }

  /** Row locks are exclusive, the organization's and the invitations'. */
  ghost predicate LocksInv(txs: map<nat, Tx>) {
    && (forall t, u | t in txs && u in txs && t != u && HoldsOrgLock(txs[t]) :: !HoldsOrgLock(txs[u]))
    && (forall t, u | t in txs && u in txs && t != u :: RowLocks(txs[t]) !! RowLocks(txs[u]))
  }

  ghost predicate Inv(s: System) {
    Booked(s.org) <= Limit(s) && AllTxInv(s.org, s.now, s.txs) && LocksInv(s.txs)
  }

  lemma LocksAfterUpdate(txs: map<nat, Tx>, tx: nat, t: Tx)
    requires LocksInv(txs)
    requires forall u | u in txs && u != tx :: RowLocks(t) !! RowLocks(txs[u])
    requires HoldsOrgLock(t) ==> forall u | u in txs && u != tx :: !HoldsOrgLock(txs[u])
    ensures LocksInv(txs[tx := t]) && LocksInv(txs - {tx})
  {
  }

  /** A step that only moves transaction `tx` on, to a phase whose needs are met and whose locks are free. */
  lemma MoveKeepsInv(s: System, tx: nat, t: Tx)
    requires Inv(s) && TxInv(s.org, s.now, t)
    requires forall u | u in s.txs && u != tx :: RowLocks(t) !! RowLocks(s.txs[u])
    requires HoldsOrgLock(t) ==> forall u | u in s.txs && u != tx :: !HoldsOrgLock(s.txs[u])
    ensures Inv(s.(txs := s.txs[tx := t]))
  {
    LocksAfterUpdate(s.txs, tx, t);
  }

  lemma CreateLockKeepsInv(s: System, a: Action)
    requires Inv(s) && Enabled(s, a) && a.CreateLock?
    ensures Inv(Apply(s, a))
  {
    MoveKeepsInv(s, a.tx, Apply(s, a).txs[a.tx]);
  }

  lemma CreateExpireKeepsInv(s: System, tx: nat)
    requires Inv(s) && Enabled(s, CreateExpire(tx))
    ensures Inv(Apply(s, CreateExpire(tx)))
  {
    var c := Apply(s, CreateExpire(tx)).txs[tx];
    assert TxInv(s.org, s.now, s.txs[tx]);
    forall u, x | u in s.txs && u != tx && x in RowLocks(c) ensures x !in RowLocks(s.txs[u]) {
      assert RowFree(s, x);
    }
    MoveKeepsInv(s, tx, c);
  }

  lemma CreateCountKeepsInv(s: System, tx: nat)
    requires Inv(s) && Enabled(s, CreateCount(tx))
    ensures Inv(Apply(s, CreateCount(tx)))
  {
    var c := s.txs[tx];
    assert TxInv(s.org, s.now, c);
    assert LiveIds(s.org.invites, c.start) - c.stale == PendingIds(s.org.invites) - c.stale;
    MoveKeepsInv(s, tx, Apply(s, CreateCount(tx)).txs[tx]);
  }

  /** While one transaction holds the organization, what any other holds is a single pending invitation. */
  lemma OthersHoldOneRow(s: System, tx: nat, u: nat)
    requires Inv(s) && tx in s.txs && u in s.txs && tx != u && HoldsOrgLock(s.txs[tx])
    ensures s.txs[u].AcceptHolding? && s.txs[u].inv in PendingIds(s.org.invites) && s.txs[u].inv !in RowLocks(s.txs[tx])
  {
    assert TxInv(s.org, s.now, s.txs[u]);
    assert s.txs[u].AcceptHolding?;
    assert s.txs[u].inv in RowLocks(s.txs[u]);
  }

  lemma PendingAfterInsert(invites: map<InvId, Invitation>, stale: set<InvId>, id: InvId, inv: Invitation)
    requires id !in invites && inv.status == Pending
    ensures PendingIds(RevokeAll(invites, stale)[id := inv]) == (PendingIds(invites) - stale) + {id}
  {
  }

  /** The stale rows go, one row comes: the count checked before leaves room for it. */
  lemma CreateCommitBooks(s: System, tx: nat, id: InvId)
    requires Inv(s) && Enabled(s, CreateCommit(tx, id))
    ensures var t := Apply(s, CreateCommit(tx, id));
      PendingIds(t.org.invites) == (PendingIds(s.org.invites) - s.txs[tx].stale) + {id} && Booked(t.org) <= Limit(t)
  {
    var c := s.txs[tx];
    assert TxInv(s.org, s.now, c);
    PendingAfterInsert(s.org.invites, c.stale, id, Invitation(c.email, c.token, Pending, c.expiresAt, None));
  }

  lemma CreateCommitKeepsInv(s: System, tx: nat, id: InvId)
    requires Inv(s) && Enabled(s, CreateCommit(tx, id))
    ensures Inv(Apply(s, CreateCommit(tx, id)))
  {
    var t := Apply(s, CreateCommit(tx, id));
    CreateCommitBooks(s, tx, id);
    LocksAfterUpdate(s.txs, tx, s.txs[tx]);
    forall u | u in t.txs ensures TxInv(t.org, t.now, t.txs[u]) {
      OthersHoldOneRow(s, tx, u);
    }
  }

  lemma AcceptKeepsInv(s: System, a: Action)
    requires Inv(s) && Enabled(s, a) && (a.AcceptHold? || a.AcceptLock? || a.AcceptCount?)
    ensures Inv(Apply(s, a))
  {
    if a.tx in s.txs {
      assert TxInv(s.org, s.now, s.txs[a.tx]);
    }
    MoveKeepsInv(s, a.tx, Apply(s, a).txs[a.tx]);
  }

  lemma AbortKeepsInv(s: System, tx: nat)
    requires Inv(s) && Enabled(s, Abort(tx))
    ensures Inv(Apply(s, Abort(tx)))
  {
    LocksAfterUpdate(s.txs, tx, s.txs[tx]);
  }

  lemma AcceptCommitKeepsInv(s: System, tx: nat)
    requires Inv(s) && Enabled(s, AcceptCommit(tx))
    ensures Inv(Apply(s, AcceptCommit(tx)))
    ensures Booked(Apply(s, AcceptCommit(tx)).org) == Booked(s.org)
  {
    var t := Apply(s, AcceptCommit(tx));
    var c := s.txs[tx];
    assert PendingIds(t.org.invites) == PendingIds(s.org.invites) - {c.inv};
    LocksAfterUpdate(s.txs, tx, c);
    forall u | u in t.txs ensures TxInv(t.org, t.now, t.txs[u]) {
      OthersHoldOneRow(s, tx, u);
    }
  }

  lemma RevokeKeepsInv(s: System, id: InvId)
    requires Inv(s) && Enabled(s, Revoke(id))
    ensures Inv(Apply(s, Revoke(id)))
  {
    var t := Apply(s, Revoke(id));
    assert PendingIds(t.org.invites) == PendingIds(s.org.invites) - {id};
    SubsetCard(PendingIds(t.org.invites), PendingIds(s.org.invites));
    forall u | u in t.txs ensures TxInv(t.org, t.now, t.txs[u]) {
      RevokeKeepsTx(s, id, s.txs[u]);
    }
  }

  lemma RefreshKeepsInv(s: System, a: Action)
    requires Inv(s) && Enabled(s, a) && a.Refresh? && InSight(s, a.expiresAt)
    ensures Inv(Apply(s, a))
  {
    var t := Apply(s, a);
    RefreshKeepsPending(s, a);
    forall u | u in t.txs ensures TxInv(t.org, t.now, t.txs[u]) {
      RefreshKeepsTx(s, a, s.txs[u]);
    }
  }

  lemma RefreshKeepsPending(s: System, a: Action)
    requires Enabled(s, a) && a.Refresh?
    ensures PendingIds(Apply(s, a).org.invites) == PendingIds(s.org.invites)
  {
  }

  lemma RevokeKeepsTx(s: System, id: InvId, c: Tx)
    requires Enabled(s, Revoke(id)) && TxInv(s.org, s.now, c) && id !in RowLocks(c)
    ensures TxInv(Apply(s, Revoke(id)).org, s.now, c)
  {
    var was := PendingIds(s.org.invites);
    assert PendingIds(Apply(s, Revoke(id)).org.invites) == was - {id};
    if c.CreateExpired? || c.CreateCounted? {
      SubsetCard(was - {id} - c.stale, was - c.stale);
    }
  }

  lemma RefreshKeepsTx(s: System, a: Action, c: Tx)
    requires a.Refresh? && Enabled(s, a) && TxInv(s.org, s.now, c) && (c.CreateExpired? ==> a.expiresAt > c.start)
    ensures TxInv(Apply(s, a).org, s.now, c)
  {
    RefreshKeepsPending(s, a);
  }

  lemma RemoveMemberKeepsInv(s: System, user: User)
    requires Inv(s) && Enabled(s, RemoveMember(user))
    ensures Inv(Apply(s, RemoveMember(user)))
  {
    var t := Apply(s, RemoveMember(user));
    SubsetCard(t.org.members, s.org.members);
    forall u | u in t.txs ensures TxInv(t.org, t.now, t.txs[u]) { assert TxInv(s.org, s.now, s.txs[u]); }
  }

  lemma SubscriptionKeepsInv(s: System, sub: Option<Subscription>)
    requires Inv(s) && Covers(s, SubscribedSeats(sub))
    ensures Inv(Apply(s, SetSubscription(sub)))
  {
    var t := Apply(s, SetSubscription(sub));
    forall u | u in t.txs ensures TxInv(t.org, t.now, t.txs[u]) {
      assert TxInv(s.org, s.now, s.txs[u]) && Covered(s.org, SubscribedSeats(sub), s.txs[u]);
    }
  }

  /** Nobody holds the organization, so no Create is open that would have to count the member. */
  lemma AddMemberKeepsInv(s: System, user: User)
    requires Inv(s) && Enabled(s, AddMember(user)) && Booked(s.org) < Limit(s)
    ensures Inv(Apply(s, AddMember(user)))
  {
    var t := Apply(s, AddMember(user));
    forall u | u in t.txs ensures TxInv(t.org, t.now, t.txs[u]) {
      assert TxInv(s.org, s.now, s.txs[u]) && !HoldsOrgLock(s.txs[u]);
    }
  }

  lemma TickKeepsInv(s: System, time: int)
    requires Inv(s) && Enabled(s, Tick(time))
    ensures Inv(Apply(s, Tick(time)))
  {
    var t := Apply(s, Tick(time));
    forall u | u in t.txs ensures TxInv(t.org, t.now, t.txs[u]) { assert TxInv(s.org, s.now, s.txs[u]); }
  }

  lemma StepKeepsInv(s: System, a: Action)
    requires Inv(s) && Enabled(s, a) && Disciplined(s, a)
    ensures Inv(Apply(s, a))
  {
    match a {
      case CreateCommit(tx, id) => CreateCommitKeepsInv(s, tx, id);
      case AcceptCommit(tx) => AcceptCommitKeepsInv(s, tx);
      case CreateLock(_, _, _, _, _) => CreateLockKeepsInv(s, a);
      case CreateExpire(tx) => CreateExpireKeepsInv(s, tx);
      case CreateCount(tx) => CreateCountKeepsInv(s, tx);
      case AcceptHold(_, _, _, _) => AcceptKeepsInv(s, a);
      case AcceptLock(_) => AcceptKeepsInv(s, a);
      case AcceptCount(_) => AcceptKeepsInv(s, a);
      case Abort(tx) => AbortKeepsInv(s, tx);
      case Refresh(_, _, _) => RefreshKeepsInv(s, a);
      case Revoke(id) => RevokeKeepsInv(s, id);
      case RemoveMember(user) => RemoveMemberKeepsInv(s, user);
      case SetSubscription(sub) => SubscriptionKeepsInv(s, sub);
      case AddMember(user) => AddMemberKeepsInv(s, user);
      case Tick(time) => TickKeepsInv(s, time);
    }
  }

  lemma {:induction false} RunKeepsInv(s: System, acts: seq<Action>)
    requires Inv(s) && Exec(s, acts).Some?
    ensures Inv(Exec(s, acts).value)
    decreases |acts|
  {
    if acts == [] {
    } else {
      StepKeepsInv(s, acts[0]);
      RunKeepsInv(Apply(s, acts[0]), acts[1..]);
    }
  }

  // ----- Main results -----

  /** A run of an organization that starts within its limit, with no transaction open. */
  ghost predicate Reaches(o: Org, now: int, acts: seq<Action>, s: System) {
    Booked(o) <= SubscribedSeats(o.sub) && Exec(System(o, now, map[]), acts) == Some(s)
  }

  /**
   * Members plus all pending invitations, expired ones included, never exceed the seat limit, in any
   * interleaving; so with any invitation still pending there is a seat left for a member.
   */
  lemma NeverOverbooked(o: Org, now: int, acts: seq<Action>, s: System)
    requires Reaches(o, now, acts, s)
    ensures Booked(s.org) <= Limit(s)
    ensures PendingIds(s.org.invites) != {} ==> |s.org.members| < Limit(s)
  {
    RunKeepsInv(System(o, now, map[]), acts);
    if x :| x in PendingIds(s.org.invites) {
      SubsetCard({x}, PendingIds(s.org.invites));
    }
  }

  /** An Accept that found its invitation live and then got the organization lock is never refused a seat. */
  lemma AcceptNeverLacksSeat(o: Org, now: int, acts: seq<Action>, s: System, tx: nat)
    requires Reaches(o, now, acts, s) && tx in s.txs && s.txs[tx].AcceptLocked?
    ensures Enabled(s, AcceptCount(tx))
  {
    NeverOverbooked(o, now, acts, s);
    RunKeepsInv(System(o, now, map[]), acts);
    assert TxInv(s.org, s.now, s.txs[tx]);
  }

  lemma ExecStep(s: System, acts: seq<Action>)
    requires acts != []
    ensures Exec(s, acts) == if Enabled(s, acts[0]) && Disciplined(s, acts[0]) then Exec(Apply(s, acts[0]), acts[1..]) else None
  {
  }

  lemma CreateEnds(o: Org, now: int, id: InvId, email: string, token: string, expiresAt: int, s2: System)
    requires id !in o.invites
    requires s2 == System(o, now, map[0 := CreateExpired(now, email, token, expiresAt, StaleIds(o.invites, now), SubscribedSeats(o.sub))])
    ensures var after := RevokeAll(o.invites, StaleIds(o.invites, now));
      var r := Exec(s2, [CreateCount(0), CreateCommit(0, id)]);
      && (r.Some? <==> |o.members| + |LiveIds(o.invites, now)| < SubscribedSeats(o.sub) && Insertable(after, email, token))
      && (r.Some? ==> r.value == System(o.(invites := after[id := Invitation(email, token, Pending, expiresAt, None)]), now, map[]))
  {
    var acts := [CreateCount(0), CreateCommit(0, id)];
    assert LiveIds(o.invites, now) - s2.txs[0].stale == LiveIds(o.invites, now);
    ExecStep(s2, acts);
    assert acts[1..] == [CreateCommit(0, id)] && acts[1..][1..] == [];
    if Enabled(s2, acts[0]) {
      var s3 := Apply(s2, acts[0]);
      ExecStep(s3, acts[1..]);
      if Enabled(s3, CreateCommit(0, id)) {
        assert Apply(s3, CreateCommit(0, id)).txs == map[];
      }
    }
  }

  lemma CreateBegins(o: Org, now: int, email: string, token: string, expiresAt: int, acts: seq<Action>) returns (s2: System)
    requires |acts| >= 2 && acts[0] == CreateLock(0, now, email, token, expiresAt) && acts[1] == CreateExpire(0)
    ensures s2 == System(o, now, map[0 := CreateExpired(now, email, token, expiresAt, StaleIds(o.invites, now), SubscribedSeats(o.sub))])
    ensures Exec(System(o, now, map[]), acts) == Exec(s2, acts[1..][1..])
  {
    var s0 := System(o, now, map[]);
    var s1 := System(o, now, map[0 := CreateLocked(now, email, token, expiresAt)]);
    s2 := System(o, now, map[0 := CreateExpired(now, email, token, expiresAt, StaleIds(o.invites, now), SubscribedSeats(o.sub))]);
    ExecStep(s0, acts);
    assert Apply(s0, acts[0]) == s1;
    ExecStep(s1, acts[1..]);
    assert Apply(s1, acts[1]).txs == s2.txs;
  }

  /** The store's Create run alone is the four steps, and succeeds in exactly the same cases. */
  lemma SerialCreate(o: Org, now: int, id: InvId, email: string, token: string, expiresAt: int)
    requires id !in o.invites
    ensures var after := RevokeAll(o.invites, StaleIds(o.invites, now));
      var r := Exec(System(o, now, map[]),
                    [CreateLock(0, now, email, token, expiresAt), CreateExpire(0), CreateCount(0), CreateCommit(0, id)]);
      && (r.Some? <==> |o.members| + |LiveIds(o.invites, now)| < SubscribedSeats(o.sub) && Insertable(after, email, token))
      && (r.Some? ==> r.value == System(o.(invites := after[id := Invitation(email, token, Pending, expiresAt, None)]), now, map[]))
  {
    var acts := [CreateLock(0, now, email, token, expiresAt), CreateExpire(0), CreateCount(0), CreateCommit(0, id)];
    assert acts[1..][1..] == [CreateCount(0), CreateCommit(0, id)];
    var s2 := CreateBegins(o, now, email, token, expiresAt, acts);
    CreateEnds(o, now, id, email, token, expiresAt, s2);
  }

  /** The store's Accept run alone is the four steps, and succeeds in exactly the same cases. */
  lemma SerialAccept(o: Org, now: int, id: InvId, token: string, user: User)
    requires id in o.invites && o.invites[id].token == token
    ensures var r := Exec(System(o, now, map[]), [AcceptHold(0, id, token, user), AcceptLock(0), AcceptCount(0), AcceptCommit(0)]);
      && (r.Some? <==> id in LiveIds(o.invites, now) && |o.members| < SubscribedSeats(o.sub) && user !in o.members)
      && (r.Some? ==> r.value == System(Org(o.members + {user},
            o.invites[id := o.invites[id].(status := Accepted, acceptedBy := Some(user))], o.sub), now, map[]))
  {
    var acts := [AcceptHold(0, id, token, user), AcceptLock(0), AcceptCount(0), AcceptCommit(0)];
    var s0 := System(o, now, map[]);
    assert acts[1..][1..] == acts[2..] && acts[2..][1..] == acts[3..] && acts[3..][1..] == [];
    if Enabled(s0, acts[0]) {
      var s1 := Apply(s0, acts[0]);
      var s2 := Apply(s1, acts[1]);
      assert Exec(s0, acts) == Exec(s1, acts[1..]) == Exec(s2, acts[2..]);
      if Enabled(s2, acts[2]) {
        var s3 := Apply(s2, acts[2]);
        assert Exec(s2, acts[2..]) == Exec(s3, acts[3..]);
        if Enabled(s3, acts[3]) {
          var s4 := Apply(s3, acts[3]);
          assert s4.txs == map[];
          assert Exec(s3, acts[3..]) == Exec(s4, []);
        }
      }
    }
  }

  /** The rows are the same but for one invitation. */
  ghost predicate OnlyRow(o: Org, t: Org, id: InvId) {
    && t.members == o.members && t.sub == o.sub && t.invites.Keys == o.invites.Keys
    && forall x | x in o.invites && x != id :: t.invites[x] == o.invites[x]
  }

  /** The one-statement steps write what the store's statements promise; statements that only read or lock write nothing. */
  lemma StepsAreStatements(s: System, a: Action)
    requires Enabled(s, a)
    ensures var o, t := s.org, Apply(s, a).org;
      match a
      case Refresh(id, token, expiresAt) =>
        && OnlyRow(o, t, id) && id in o.invites && o.invites[id].status == Pending
        && t.invites[id] == Invitation(o.invites[id].email, token, Pending, expiresAt, o.invites[id].acceptedBy)
      case Revoke(id) =>
        && OnlyRow(o, t, id) && id in o.invites && o.invites[id].status == Pending
        && t.invites[id] == o.invites[id].(status := Revoked)
      case RemoveMember(user) => user in o.members && t == Org(o.members - {user}, o.invites, o.sub)
      case AddMember(user) => user !in o.members && t == Org(o.members + {user}, o.invites, o.sub)
      case SetSubscription(sub) => t == Org(o.members, o.invites, sub)
      case CreateCommit(_, id) => id !in o.invites && id in t.invites && t.members == o.members && t.sub == o.sub
      case AcceptCommit(_) => t.members > o.members && t.sub == o.sub
      case _ => t == o
  {
  }

  // ----- The hypotheses are needed -----

  /** A new limit keeps the invariant exactly when it covers what is booked and every open Create. */
  lemma NewLimitExactly(s: System, sub: Option<Subscription>)
    requires Inv(s)
    ensures Inv(Apply(s, SetSubscription(sub))) <==> Covers(s, SubscribedSeats(sub))
  {
    var t := Apply(s, SetSubscription(sub));
    if Covers(s, SubscribedSeats(sub)) { SubscriptionKeepsInv(s, sub); }
    if Inv(t) {
      forall u | u in s.txs ensures Covered(s.org, SubscribedSeats(sub), s.txs[u]) {
        assert TxInv(t.org, t.now, t.txs[u]);
      }
    }
  }

  /** While nobody holds the organization that is what is booked; and a limit that is not lower always covers. */
  lemma WhenLimitsCover(s: System, limit: int)
    requires Inv(s)
    ensures OrgFree(s) ==> (Covers(s, limit) <==> Booked(s.org) <= limit)
    ensures Limit(s) <= limit ==> Covers(s, limit)
  {
    forall t | t in s.txs
      ensures !HoldsOrgLock(s.txs[t]) ==> Covered(s.org, limit, s.txs[t])
      ensures Limit(s) <= limit ==> Covered(s.org, limit, s.txs[t])
    {
      assert TxInv(s.org, s.now, s.txs[t]);
    }
  }

  /** A member added directly keeps the invariant exactly when a seat is not booked. */
  lemma DirectMemberExactly(s: System, user: User)
    requires Inv(s) && Enabled(s, AddMember(user))
    ensures Inv(Apply(s, AddMember(user))) <==> Booked(s.org) < Limit(s)
  {
    assert Apply(s, AddMember(user)).org.members == s.org.members + {user};
    if Booked(s.org) < Limit(s) { AddMemberKeepsInv(s, user); }
  }

  /**
   * A refresh keeps the invariant exactly when the new deadline is later than the start of every Create
   * that has revoked the stale rows and not counted yet.
   */
  lemma RefreshExactly(s: System, id: InvId, token: string, expiresAt: int)
    requires Inv(s) && Enabled(s, Refresh(id, token, expiresAt))
    ensures Inv(Apply(s, Refresh(id, token, expiresAt))) <==> InSight(s, expiresAt)
  {
    var a := Refresh(id, token, expiresAt);
    var t := Apply(s, a);
    if InSight(s, expiresAt) { RefreshKeepsInv(s, a); }
    if Inv(t) {
      forall u | u in s.txs && s.txs[u].CreateExpired? ensures expiresAt > s.txs[u].start {
        assert TxInv(t.org, t.now, t.txs[u]);
        assert id in PendingIds(t.org.invites) && id !in RowLocks(s.txs[u]);
      }
    }
  }

  /** What a caller can see to: a deadline that still lies in the future. */
  lemma FutureIsInSight(s: System, expiresAt: int)
    requires Inv(s) && expiresAt > s.now
    ensures InSight(s, expiresAt)
  {
    forall t | t in s.txs && s.txs[t].CreateExpired? ensures expiresAt > s.txs[t].start {
      assert TxInv(s.org, s.now, s.txs[t]);
    }
  }

  /** Any sequence of enabled steps, disciplined or not. */
  ghost function Run(s: System, acts: seq<Action>): Option<System>
    decreases |acts|
  {
    if acts == [] then Some(s) else if Enabled(s, acts[0]) then Run(Apply(s, acts[0]), acts[1..]) else None
  }

  lemma RunStep(s: System, a: Action, rest: seq<Action>)
    requires Enabled(s, a)
    ensures Run(s, [a] + rest) == Run(Apply(s, a), rest)
  {
    assert ([a] + rest)[1..] == rest;
  }

  ghost predicate Overbooks(r: Option<System>) {
    r.Some? && Booked(r.value.org) > Limit(r.value)
  }

  /** What an open Create still has to do. */
  function Remaining(t: Tx, tx: nat, id: InvId): seq<Action> {
    if t.CreateExpired? then [CreateCount(tx)] + [CreateCommit(tx, id)] else [CreateCommit(tx, id)]
  }

  lemma CommitOverbooks(s: System, tx: nat, id: InvId)
    requires tx in s.txs && s.txs[tx].CreateCounted? && Enabled(s, CreateCommit(tx, id))
    requires s.txs[tx].stale <= PendingIds(s.org.invites)
    requires |s.org.members| + |PendingIds(s.org.invites) - s.txs[tx].stale| >= Limit(s)
    ensures Overbooks(Run(s, [CreateCommit(tx, id)]))
  {
    var c := s.txs[tx];
    RunStep(s, CreateCommit(tx, id), []);
    assert [CreateCommit(tx, id)] + [] == [CreateCommit(tx, id)];
    PendingAfterInsert(s.org.invites, c.stale, id, Invitation(c.email, c.token, Pending, c.expiresAt, None));
  }

  /**
   * An open Create that a new limit does not cover does overbook: it goes on to commit, and the seats
   * booked exceed the limit, even if the limit covers everything booked when it is set.
   */
  lemma UncoveredCreateOverbooks(s: System, tx: nat, sub: Option<Subscription>, id: InvId)
    requires Inv(s) && tx in s.txs && Booked(s.org) <= SubscribedSeats(sub)
    requires !Covered(s.org, SubscribedSeats(sub), s.txs[tx]) && id !in s.org.invites
    requires Insertable(RevokeAll(s.org.invites, s.txs[tx].stale), s.txs[tx].email, s.txs[tx].token)
    ensures Overbooks(Run(s, [SetSubscription(sub)] + Remaining(s.txs[tx], tx, id)))
  {
    var t := Apply(s, SetSubscription(sub));
    var c := s.txs[tx];
    assert TxInv(s.org, s.now, c);
    RunStep(s, SetSubscription(sub), Remaining(c, tx, id));
    if c.CreateExpired? {
      SubsetCard(LiveIds(s.org.invites, c.start) - c.stale, PendingIds(s.org.invites));
      RunStep(t, CreateCount(tx), [CreateCommit(tx, id)]);
      CommitOverbooks(Apply(t, CreateCount(tx)), tx, id);
    } else {
      CommitOverbooks(t, tx, id);
    }
  }

  /** Two members, nothing pending, three seats; a Create past its count; then the seats are synced to two. */
  function SyncedUnder(): System {
    System(Org({1, 2}, map[], Some(Subscription("sub", true, true, 3))), 0, map[0 := CreateCounted(0, "b", "t", 100, {})])
  }

  /** The sync of the seat count while a Create is open: the new limit equals the members, and three seats are booked. */
  lemma SyncDuringCreateOverbooks()
    ensures Exec(System(SyncedUnder().org, 0, map[]), [CreateLock(0, 0, "b", "t", 100)] + ([CreateExpire(0)] + [CreateCount(0)]))
      == Some(SyncedUnder())
    ensures Booked(SyncedUnder().org) == 2
    ensures Overbooks(Run(SyncedUnder(), [SetSubscription(Some(Subscription("sub", true, true, 2)))] + [CreateCommit(0, 8)]))
  {
    var s, sub := SyncedUnder(), Some(Subscription("sub", true, true, 2));
    assert PendingIds(s.org.invites) == {} && PendingIds(s.org.invites) - {} == {};
    SyncedUnderIsReached();
    assert TxInv(s.org, s.now, s.txs[0]);
    UncoveredCreateOverbooks(s, 0, sub, 8);
  }

  lemma SyncedUnderIsReached()
    ensures Exec(System(SyncedUnder().org, 0, map[]), [CreateLock(0, 0, "b", "t", 100)] + ([CreateExpire(0)] + [CreateCount(0)]))
      == Some(SyncedUnder())
  {
    var o := SyncedUnder().org;
    var acts := [CreateLock(0, 0, "b", "t", 100)] + ([CreateExpire(0)] + [CreateCount(0)]);
    assert acts[1..][1..] == [CreateCount(0)];
    assert StaleIds(o.invites, 0) == {} && LiveIds(o.invites, 0) - {} == {};
    var s2 := CreateBegins(o, 0, "b", "t", 100, acts);
    ExecStep(s2, [CreateCount(0)]);
    assert [CreateCount(0)][1..] == [];
    assert Apply(s2, CreateCount(0)).txs == SyncedUnder().txs;
  }

  /** A two-seat organization with one member, one pending invitation, and a Create past its expiry step. */
  function RaceStart(token: string, expiresAt: int): System {
    System(RaceOrg(token, expiresAt), 6, map[0 := CreateExpired(6, "b", "t", 100, {}, 2)])
  }

  function RaceOrg(token: string, expiresAt: int): Org {
    Org({1}, map[7 := Invitation("a", token, Pending, expiresAt, None)], Some(Subscription("sub", true, true, 2)))
  }

  function RaceEnd(): System {
    System(Org({1}, map[7 := Invitation("a", "new", Pending, 3, None), 8 := Invitation("b", "t", Pending, 100, None)],
               Some(Subscription("sub", true, true, 2))), 6, map[])
  }

  /**
   * A refresh that stores a deadline already past, between the expiry and the count of a Create, hides
   * a pending row from the count: an organization within its limit ends with three seats of two booked.
   */
  lemma StaleRefreshOverbooks()
    ensures Booked(RaceOrg("old", 100)) <= SubscribedSeats(RaceOrg("old", 100).sub)
    ensures Exec(System(RaceOrg("old", 100), 6, map[]), [CreateLock(0, 6, "b", "t", 100)] + [CreateExpire(0)]) == Some(RaceStart("old", 100))
    ensures Run(RaceStart("old", 100), [Refresh(7, "new", 3)] + ([CreateCount(0)] + [CreateCommit(0, 8)])) == Some(RaceEnd())
    ensures Booked(RaceEnd().org) == 3 && Limit(RaceEnd()) == 2
  {
    RaceIsReached();
    RaceBegins();
    RaceCommits();
    var s, t := RaceStart("old", 100), RaceStart("new", 3);
    RunStep(s, Refresh(7, "new", 3), [CreateCount(0)] + [CreateCommit(0, 8)]);
    RunStep(t, CreateCount(0), [CreateCommit(0, 8)]);
    RunStep(Apply(t, CreateCount(0)), CreateCommit(0, 8), []);
    assert [CreateCommit(0, 8)] + [] == [CreateCommit(0, 8)];
  }

  lemma RaceIsReached()
    ensures Booked(RaceOrg("old", 100)) == 2
    ensures Exec(System(RaceOrg("old", 100), 6, map[]), [CreateLock(0, 6, "b", "t", 100)] + [CreateExpire(0)]) == Some(RaceStart("old", 100))
  {
    var o := RaceOrg("old", 100);
    var acts := [CreateLock(0, 6, "b", "t", 100)] + [CreateExpire(0)];
    assert PendingIds(o.invites) == {7} && StaleIds(o.invites, 6) == {};
    var s2 := CreateBegins(o, 6, "b", "t", 100, acts);
    assert acts[1..][1..] == [];
  }

  lemma RaceBegins()
    ensures var s, t := RaceStart("old", 100), RaceStart("new", 3);
      Enabled(s, Refresh(7, "new", 3)) && Apply(s, Refresh(7, "new", 3)) == t && Enabled(t, CreateCount(0))
  {
    var s, t := RaceStart("old", 100), RaceStart("new", 3);
    assert PendingIds(s.org.invites) == {7};
    assert LiveIds(t.org.invites, 6) - t.txs[0].stale == {};
    assert s.org.invites[7].(token := "new", expiresAt := 3) == t.org.invites[7];
    assert s.org.invites[7 := t.org.invites[7]] == t.org.invites;
  }

  lemma RaceCommits()
    requires Enabled(RaceStart("new", 3), CreateCount(0))
    ensures var u := Apply(RaceStart("new", 3), CreateCount(0));
      Enabled(u, CreateCommit(0, 8)) && Apply(u, CreateCommit(0, 8)) == RaceEnd()
    ensures Booked(RaceEnd().org) == 3
  {
    var u := Apply(RaceStart("new", 3), CreateCount(0));
    var after := RevokeAll(u.org.invites, {});
    assert after == u.org.invites;
    assert "new" != "t" && "a" != "b" by { assert "new"[0] != "t"[0] && "a"[0] != "b"[0]; }
    assert Apply(u, CreateCommit(0, 8)).txs == map[];
    assert Apply(u, CreateCommit(0, 8)).org.invites == RaceEnd().org.invites;
    assert PendingIds(RaceEnd().org.invites) == {7, 8};
  }

  // ----- Waiting for each other -----

  /** The next statement of an open transaction waits for a lock; only these two statements ask for one. */
  ghost predicate Waits(s: System, tx: nat)
    requires tx in s.txs
  {
    match s.txs[tx]
    case AcceptHolding(_, _) => !OrgFree(s)
    case CreateLocked(start, _, _, _) => exists x :: x in StaleIds(s.org.invites, start) && !RowFree(s, x)
    case _ => false
  }

  ghost predicate Stuck(s: System) {
    s.txs != map[] && forall t | t in s.txs :: Waits(s, t)
  }

  /** A Create holds the organization and wants a stale row; an Accept holds that row and wants the organization. */
  ghost predicate Crossed(s: System, create: nat, accept: nat) {
    && create in s.txs && accept in s.txs && s.txs[create].CreateLocked? && s.txs[accept].AcceptHolding?
    && s.txs[accept].inv in StaleIds(s.org.invites, s.txs[create].start)
  }

  lemma CrossedIsStuck(s: System, create: nat, accept: nat)
    requires Inv(s) && Crossed(s, create, accept)
    ensures Stuck(s) && forall t | t in s.txs && t != create :: s.txs[t].AcceptHolding?
  {
    assert s.txs[accept].inv in RowLocks(s.txs[accept]);
    forall t | t in s.txs ensures Waits(s, t) && (t != create ==> s.txs[t].AcceptHolding?) {
      if t == create {
        assert !RowFree(s, s.txs[accept].inv);
      } else {
        OthersHoldOneRow(s, create, t);
        assert HoldsOrgLock(s.txs[create]);
      }
    }
  }

  lemma StuckIsCrossed(s: System) returns (create: nat, accept: nat)
    requires Inv(s) && Stuck(s)
    ensures Crossed(s, create, accept)
  {
    var some :| some in s.txs;
    if s.txs[some].AcceptHolding? {
      assert Waits(s, some);
      create :| create in s.txs && HoldsOrgLock(s.txs[create]);
    } else {
      create := some;
    }
    assert Waits(s, create);
    var x :| x in StaleIds(s.org.invites, s.txs[create].start) && !RowFree(s, x);
    accept :| accept in s.txs && x in RowLocks(s.txs[accept]);
    OthersHoldOneRow(s, create, accept);
  }

  /**
   * Open transactions are stuck if and only if a Create and an Accept are crossed; then all the others
   * wait for the same organization, and ending the Create lets every one of them go on.
   */
  lemma StuckExactlyWhenCrossed(s: System)
    requires Inv(s)
    ensures Stuck(s) <==> exists c, a :: Crossed(s, c, a)
    ensures forall c, a | Crossed(s, c, a) ::
      Enabled(s, Abort(c)) && forall t | t in Apply(s, Abort(c)).txs :: Enabled(Apply(s, Abort(c)), AcceptLock(t))
  {
    if Stuck(s) {
      var c, a := StuckIsCrossed(s);
    }
    forall c, a | Crossed(s, c, a)
      ensures Stuck(s) && Enabled(s, Abort(c)) && forall t | t in Apply(s, Abort(c)).txs :: Enabled(Apply(s, Abort(c)), AcceptLock(t))
    {
      CrossedIsStuck(s, c, a);
    }
  }

  /** The next step of a transaction is enabled. */
  ghost predicate Moves(s: System, tx: nat)
    requires tx in s.txs
  {
    match s.txs[tx]
    case CreateLocked(_, _, _, _) => Enabled(s, CreateExpire(tx))
    case CreateExpired(_, _, _, _, _, _) => Enabled(s, CreateCount(tx))
    case CreateCounted(_, _, _, _, _) => exists id :: Enabled(s, CreateCommit(tx, id))
    case AcceptHolding(_, _) => Enabled(s, AcceptLock(tx))
    case AcceptLocked(_, _) => Enabled(s, AcceptCount(tx))
    case AcceptCounted(_, _) => Enabled(s, AcceptCommit(tx))
  }

  /** The transaction's own check turns it away: no seat, a taken email or token, or a member already. */
  ghost predicate Refused(s: System, tx: nat)
    requires tx in s.txs
  {
    match s.txs[tx]
    case CreateExpired(start, _, _, _, stale, seatLimit) =>
      |s.org.members| + |LiveIds(s.org.invites, start) - stale| >= seatLimit
    case CreateCounted(_, email, token, _, stale) => !Insertable(RevokeAll(s.org.invites, stale), email, token)
    case AcceptLocked(_, _) => |s.org.members| >= Limit(s)
    case AcceptCounted(_, user) => user in s.org.members
    case _ => false
  }

  lemma SomeIdIsFree(invites: map<InvId, Invitation>)
    ensures exists id: InvId :: id !in invites
  {
    var ids := Below(|invites.Keys| + 1);
    assert ids - invites.Keys != {} by {
      MinusCard(ids, invites.Keys);
      SubsetCard(ids * invites.Keys, invites.Keys);
    }
    var id :| id in ids - invites.Keys;
    assert id !in invites;
  }

  lemma WaitsOrGoesOn(s: System, tx: nat)
    requires Inv(s) && tx in s.txs
    ensures Waits(s, tx) <==> !Moves(s, tx) && !Refused(s, tx)
  {
    assert TxInv(s.org, s.now, s.txs[tx]);
    if s.txs[tx].CreateCounted? {
      SomeIdIsFree(s.org.invites);
      var id: InvId :| id !in s.org.invites;
      assert !Refused(s, tx) ==> Enabled(s, CreateCommit(tx, id));
    }
  }

  /**
   * No other standstill: among open transactions some one can take its next step or is turned away by its
   * own check, if and only if no Create and Accept are crossed.
   */
  lemma GoesOnUnlessCrossed(s: System)
    requires Inv(s) && s.txs != map[]
    ensures (exists t :: t in s.txs && (Moves(s, t) || Refused(s, t))) <==> !(exists c, a :: Crossed(s, c, a))
  {
    forall t | t in s.txs ensures Waits(s, t) <==> !Moves(s, t) && !Refused(s, t) { WaitsOrGoesOn(s, t); }
    StuckExactlyWhenCrossed(s);
  }

  function CrossedOrg(): Org {
    Org({1}, map[7 := Invitation("a", "x", Pending, 5, None)], Some(Subscription("sub", true, true, 2)))
  }

  /** An Accept finds its invitation live; time passes the deadline; a Create takes the organization. */
  lemma DeadlockIsReachable()
    ensures var r := Exec(System(CrossedOrg(), 4, map[]),
                          [AcceptHold(1, 7, "x", 2)] + ([Tick(6)] + [CreateLock(0, 6, "b", "t", 100)]));
      Booked(CrossedOrg()) <= SubscribedSeats(CrossedOrg().sub) && r.Some? && Crossed(r.value, 0, 1) && Stuck(r.value)
  {
    var o := CrossedOrg();
    var acts := [AcceptHold(1, 7, "x", 2)] + ([Tick(6)] + [CreateLock(0, 6, "b", "t", 100)]);
    var s0 := System(o, 4, map[]);
    assert PendingIds(o.invites) == {7};
    ExecStep(s0, acts);
    var s1 := Apply(s0, acts[0]);
    ExecStep(s1, acts[1..]);
    var s2 := Apply(s1, Tick(6));
    assert acts[1..][1..] == [CreateLock(0, 6, "b", "t", 100)];
    ExecStep(s2, [CreateLock(0, 6, "b", "t", 100)]);
    assert [CreateLock(0, 6, "b", "t", 100)][1..] == [];
    var s3 := Apply(s2, CreateLock(0, 6, "b", "t", 100));
    RunKeepsInv(s0, acts);
    CrossedIsStuck(s3, 0, 1);
  }
}
