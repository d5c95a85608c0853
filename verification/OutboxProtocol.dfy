/**
 * The outbox under concurrency: business transactions, any number of delivery workers and retention
 * jobs, crashes and replays, one atomic database effect per step, in any order.
 *
 * A delivery is three steps. `Start` fixes the statement's snapshot of the event table, which may be
 * stale by the time the rows are marked; `Claim` locks rows in their current version; `Deliver`
 * inserts, marks and commits. A purge is two steps, because the rows it selected may be reset before
 * it deletes them.
 */
module OutboxProtocol {
  import opened Common
  import opened OrderLimit
  import opened Outbox

  datatype Draft<C> = Draft(id: Id, content: C)

  datatype Worker =
    | Started(seen: set<Id>)
    | Holding(ids: seq<Id>, seen: set<Id>)

  datatype System<C> = System(
    outbox: map<Id, Row<C>>,
    log: seq<Event<C>>,
    enqueued: map<Id, C>,            // what committed transactions enqueued, for good
    drafts: map<nat, Draft<C>>,      // uncommitted outbox rows, by transaction
    workers: map<nat, Worker>,
    purges: map<nat, set<Id>>)

  datatype Action<C> =
    | Begin(tx: nat, id: Id, content: C)
    | Commit(tx: nat, now: int)
    | Rollback(tx: nat)
    | RecordDirectly(id: Id, content: C)
    | Start(w: nat)
    | Claim(w: nat, ids: seq<Id>, now: int)
    | Deliver(w: nat, now: int)
    | Crash(w: nat)
    | Replay(id: Id)
    | PurgeSelect(p: nat, rows: set<Id>, before: int)
    | PurgeDelete(p: nat)
    | PurgeCrash(p: nat)

  function DraftIds<C>(s: System<C>): set<Id> {
    set tx | tx in s.drafts :: s.drafts[tx].id
  }

  /** Rows that some worker holds FOR UPDATE. */
  function Locked<C>(s: System<C>): set<Id> {
    set w, x | w in s.workers && s.workers[w].Holding? && x in s.workers[w].ids :: x
  }

  /** Event ids are random UUIDs: a new one is used nowhere yet. */
  ghost predicate Fresh<C>(s: System<C>, id: Id) {
    id !in s.enqueued && id !in DraftIds(s) && id !in Ids(s.log)
  }

  ghost predicate Enabled<C>(s: System<C>, a: Action<C>) {
    match a
    case Begin(tx, id, _) => tx !in s.drafts && Fresh(s, id)
    case Commit(tx, _) => tx in s.drafts
    case Rollback(tx) => tx in s.drafts
    case RecordDirectly(id, _) => Fresh(s, id)
    case Start(w) => w !in s.workers
    case Claim(w, ids, now) =>
      w in s.workers && s.workers[w].Started? && Distinct(ids) && Elements(ids) <= Eligible(s.outbox, Locked(s), now)
    case Deliver(w, _) =>
      w in s.workers && s.workers[w].Holding? && forall x | x in s.workers[w].ids :: x in s.outbox
    case Crash(w) => w in s.workers
    case Replay(id) => id in s.outbox && id !in Locked(s)
    case PurgeSelect(p, rows, before) =>
      && p !in s.purges && rows <= s.outbox.Keys
      && forall x | x in rows :: s.outbox[x].processedAt.Some? && s.outbox[x].processedAt.value < before
    case PurgeDelete(p) => p in s.purges && s.purges[p] !! Locked(s)
    case PurgeCrash(p) => p in s.purges
  }

  ghost function Apply<C>(s: System<C>, a: Action<C>): System<C>
    requires Enabled(s, a)
  {
    match a
    case Begin(tx, id, content) => s.(drafts := s.drafts[tx := Draft(id, content)])
    case Commit(tx, now) =>
      var d := s.drafts[tx];
      s.(drafts := s.drafts - {tx},
         outbox := s.outbox[d.id := Row(d.content, now, now, None)],
         enqueued := s.enqueued[d.id := d.content])
    case Rollback(tx) => s.(drafts := s.drafts - {tx})
    case RecordDirectly(id, content) => s.(log := s.log + [Event(id, content)])
    case Start(w) => s.(workers := s.workers[w := Started(Ids(s.log))])
    case Claim(w, ids, now) => s.(workers := s.workers[w := Holding(ids, s.workers[w].seen)])
    case Deliver(w, now) =>
      var Holding(ids, seen) := s.workers[w];
      s.(workers := s.workers - {w},
         log := InsertMissing(s.log, s.outbox, ids),
         outbox := MarkProcessed(s.outbox, Marked(s.log, seen, ids), now))
    case Crash(w) => s.(workers := s.workers - {w})
    case Replay(id) => s.(outbox := s.outbox[id := s.outbox[id].(processedAt := None)])
    case PurgeSelect(p, rows, _) => s.(purges := s.purges[p := rows])
    case PurgeDelete(p) => s.(purges := s.purges - {p}, outbox := Remove(s.outbox, s.purges[p]))
    case PurgeCrash(p) => s.(purges := s.purges - {p})
  }

  /** Steps that are not enabled block; a run is any sequence of steps that were enabled. */
  ghost function Exec<C>(s: System<C>, acts: seq<Action<C>>): Option<System<C>>
    decreases |acts|
  {
    if acts == [] then Some(s)
    else if Enabled(s, acts[0]) then Exec(Apply(s, acts[0]), acts[1..])
    else None
  }

  function Initial<C>(): System<C> {
    System(map[], [], map[], map[], map[], map[])
  }

  // ----- What must hold -----

  ghost predicate Logged<C>(log: seq<Event<C>>, id: Id, content: C) {
    Event(id, content) in log
  }

  /** An enqueued event waits in the outbox, or is in the log, with the content it was enqueued with. */
  ghost predicate Accounted<C>(s: System<C>, id: Id)
    requires id in s.enqueued
  {
    || (id in s.outbox && s.outbox[id].processedAt.None? && s.outbox[id].content == s.enqueued[id])
    || Logged(s.log, id, s.enqueued[id])
  }

  ghost predicate Safe<C>(s: System<C>) {
    && UniqueIds(s.log)
    && (forall id | id in s.enqueued :: Accounted(s, id))
    && (forall e | e in s.log && e.id in s.enqueued :: e.content == s.enqueued[e.id])
  }

  // ----- Why it holds -----

  ghost predicate RowsInv<C>(s: System<C>) {
    forall id | id in s.outbox ::
      && id in s.enqueued
      && s.outbox[id].content == s.enqueued[id]
      && (s.outbox[id].processedAt.Some? ==> Logged(s.log, id, s.enqueued[id]))
  }

  ghost predicate DraftsInv<C>(s: System<C>) {
    && (forall tx | tx in s.drafts :: s.drafts[tx].id !in s.enqueued && s.drafts[tx].id !in Ids(s.log))
    && (forall tx, ty | tx in s.drafts && ty in s.drafts && tx != ty :: s.drafts[tx].id != s.drafts[ty].id)
  }

  /** What one worker holds is pending, and its snapshot is a past of the log. */
  ghost predicate WorkerInv<C>(s: System<C>, w: Worker) {
    && w.seen <= Ids(s.log)
    && (w.Holding? ==> forall x | x in w.ids :: x in s.outbox && s.outbox[x].processedAt.None?)
  }

  ghost predicate WorkersInv<C>(s: System<C>) {
    && (forall w | w in s.workers :: WorkerInv(s, s.workers[w]))
    && (forall v, w, x | v in s.workers && w in s.workers && v != w && s.workers[v].Holding? && s.workers[w].Holding?
          && x in s.workers[v].ids :: x !in s.workers[w].ids)
  }

  /** A row selected for deletion was processed once, and processed once means logged for good. */
  ghost predicate PurgesInv<C>(s: System<C>) {
    forall p, x | p in s.purges && x in s.purges[p] :: x in s.enqueued && Logged(s.log, x, s.enqueued[x])
  }

  ghost predicate Inv<C>(s: System<C>) {
    Safe(s) && RowsInv(s) && DraftsInv(s) && WorkersInv(s) && PurgesInv(s)
  }

  /** One step only appends to the log, only adds to what was enqueued, and deletes only logged rows. */
  ghost predicate Forward<C>(s: System<C>, t: System<C>) {
    && s.log <= t.log
    && (forall id | id in s.enqueued :: id in t.enqueued && t.enqueued[id] == s.enqueued[id])
    && (forall id | id in s.outbox && id !in t.outbox :: id in s.enqueued && Logged(t.log, id, s.enqueued[id]))
  }

  lemma CommitKeepsInv<C>(s: System<C>, tx: nat, now: int)
    requires Inv(s) && Enabled(s, Commit(tx, now))
    ensures Inv(Apply(s, Commit(tx, now))) && Forward(s, Apply(s, Commit(tx, now)))
  {
    var t := Apply(s, Commit(tx, now));
    var d := s.drafts[tx];
    forall id | id in t.enqueued ensures Accounted(t, id) {
      if id != d.id { assert Accounted(s, id); }
    }
    assert forall e | e in s.log :: e.id in Ids(s.log);
    assert d.id !in s.outbox;
  }

  lemma RecordKeepsInv<C>(s: System<C>, id: Id, content: C)
    requires Inv(s) && Enabled(s, RecordDirectly(id, content))
    ensures Inv(Apply(s, RecordDirectly(id, content))) && Forward(s, Apply(s, RecordDirectly(id, content)))
  {
    var t := Apply(s, RecordDirectly(id, content));
    IdsAppend(s.log, Event(id, content));
    forall x | x in t.enqueued ensures Accounted(t, x) { assert Accounted(s, x); }
    assert forall e | e in t.log :: e in s.log || e == Event(id, content);
    assert DraftsInv(t) by {
      assert forall tx | tx in s.drafts :: s.drafts[tx].id in DraftIds(s);
    }
    assert WorkersInv(t) by {
      forall w | w in t.workers ensures WorkerInv(t, t.workers[w]) { assert WorkerInv(s, s.workers[w]); }
    }
  }

  lemma DeliverKeepsSafe<C>(s: System<C>, w: nat, now: int)
    requires Inv(s) && Enabled(s, Deliver(w, now))
    ensures var t := Apply(s, Deliver(w, now));
      Safe(t) && RowsInv(t) && Forward(s, t) && Ids(t.log) == Ids(s.log) + Elements(s.workers[w].ids)
  {
    var t := Apply(s, Deliver(w, now));
    var Holding(ids, seen) := s.workers[w];
    InsertMissingSpec(s.log, s.outbox, ids);
    assert WorkerInv(s, s.workers[w]);
    forall x | x in ids ensures Logged(t.log, x, s.enqueued[x]) {
      assert x in Elements(ids) && x in Ids(t.log);
      var e :| e in t.log && e.id == x;
      assert e.content == s.enqueued[x];
      assert e == Event(x, s.enqueued[x]);
    }
    forall id | id in t.enqueued ensures Accounted(t, id) {
      assert Accounted(s, id);
      assert id in ids || id !in s.outbox || t.outbox[id] == s.outbox[id];
    }
  }

  lemma DeliverKeepsInv<C>(s: System<C>, w: nat, now: int)
    requires Inv(s) && Enabled(s, Deliver(w, now))
    ensures Inv(Apply(s, Deliver(w, now))) && Forward(s, Apply(s, Deliver(w, now)))
  {
    DeliverKeepsSafe(s, w, now);
    var t := Apply(s, Deliver(w, now));
    var Holding(ids, seen) := s.workers[w];
    forall v | v in t.workers ensures WorkerInv(t, t.workers[v]) {
      assert WorkerInv(s, s.workers[v]);
    }
    assert DraftsInv(t);
  }

  lemma LocksKeepInv<C>(s: System<C>, a: Action<C>)
    requires Inv(s) && Enabled(s, a) && (a.Start? || a.Claim? || a.Crash?)
    ensures Inv(Apply(s, a)) && Forward(s, Apply(s, a))
  {
    var t := Apply(s, a);
    forall id | id in t.enqueued ensures Accounted(t, id) { assert Accounted(s, id); }
    forall w | w in t.workers ensures WorkerInv(t, t.workers[w]) {
      if w in s.workers { assert WorkerInv(s, s.workers[w]); }
      if a.Claim? && w == a.w {
        assert forall x | x in a.ids :: x in Elements(a.ids);
      }
    }
    if a.Claim? {
      forall v, x | v in s.workers && s.workers[v].Holding? && x in s.workers[v].ids ensures x !in a.ids {
        assert x in Locked(s);
        assert x !in Elements(a.ids);
      }
    }
  }

  lemma ReplayKeepsInv<C>(s: System<C>, id: Id)
    requires Inv(s) && Enabled(s, Replay(id))
    ensures Inv(Apply(s, Replay(id))) && Forward(s, Apply(s, Replay(id)))
  {
    var t := Apply(s, Replay(id));
    forall x | x in t.enqueued ensures Accounted(t, x) { assert Accounted(s, x); }
    forall w | w in t.workers ensures WorkerInv(t, t.workers[w]) { assert WorkerInv(s, s.workers[w]); }
  }

  lemma PurgeDeleteKeepsInv<C>(s: System<C>, p: nat)
    requires Inv(s) && Enabled(s, PurgeDelete(p))
    ensures Inv(Apply(s, PurgeDelete(p))) && Forward(s, Apply(s, PurgeDelete(p)))
  {
    var t := Apply(s, PurgeDelete(p));
    assert forall x | x in s.purges[p] :: Logged(s.log, x, s.enqueued[x]);
    forall x | x in t.enqueued ensures Accounted(t, x) { assert Accounted(s, x); }
    forall w | w in t.workers ensures WorkerInv(t, t.workers[w]) {
      assert WorkerInv(s, s.workers[w]);
      if t.workers[w].Holding? {
        assert forall x | x in t.workers[w].ids :: x in Locked(s);
      }
    }
  }

  lemma SelectionKeepsInv<C>(s: System<C>, a: Action<C>)
    requires Inv(s) && Enabled(s, a) && (a.PurgeSelect? || a.PurgeCrash?)
    ensures Inv(Apply(s, a)) && Forward(s, Apply(s, a))
  {
    var t := Apply(s, a);
    forall x | x in t.enqueued ensures Accounted(t, x) { assert Accounted(s, x); }
    forall w | w in t.workers ensures WorkerInv(t, t.workers[w]) { assert WorkerInv(s, s.workers[w]); }
  }

  lemma StepKeepsInv<C>(s: System<C>, a: Action<C>)
    requires Inv(s) && Enabled(s, a)
    ensures Inv(Apply(s, a)) && Forward(s, Apply(s, a))
  {
    match a {
      case Begin(tx, id, content) =>
        BeginKeepsInv(s, tx, id, content);
      case Commit(tx, now) => CommitKeepsInv(s, tx, now);
      case Rollback(tx) => RollbackKeepsInv(s, tx);
      case RecordDirectly(id, content) => RecordKeepsInv(s, id, content);
      case Deliver(w, now) => DeliverKeepsInv(s, w, now);
      case Replay(id) => ReplayKeepsInv(s, id);
      case Start(_) => LocksKeepInv(s, a);
      case Claim(_, _, _) => LocksKeepInv(s, a);
      case Crash(_) => LocksKeepInv(s, a);
      case PurgeDelete(p) => PurgeDeleteKeepsInv(s, p);
      case PurgeSelect(_, _, _) => SelectionKeepsInv(s, a);
      case PurgeCrash(_) => SelectionKeepsInv(s, a);
    }
  }

  lemma BeginKeepsInv<C>(s: System<C>, tx: nat, id: Id, content: C)
    requires Inv(s) && Enabled(s, Begin(tx, id, content))
    ensures Inv(Apply(s, Begin(tx, id, content))) && Forward(s, Apply(s, Begin(tx, id, content)))
  {
    var t := Apply(s, Begin(tx, id, content));
    assert forall x | x in s.drafts :: s.drafts[x].id in DraftIds(s);
    forall x | x in t.enqueued ensures Accounted(t, x) { assert Accounted(s, x); }
    forall w | w in t.workers ensures WorkerInv(t, t.workers[w]) { assert WorkerInv(s, s.workers[w]); }
  }

  lemma RollbackKeepsInv<C>(s: System<C>, tx: nat)
    requires Inv(s) && Enabled(s, Rollback(tx))
    ensures Inv(Apply(s, Rollback(tx))) && Forward(s, Apply(s, Rollback(tx)))
  {
    var t := Apply(s, Rollback(tx));
    forall x | x in t.enqueued ensures Accounted(t, x) { assert Accounted(s, x); }
    forall w | w in t.workers ensures WorkerInv(t, t.workers[w]) { assert WorkerInv(s, s.workers[w]); }
  }

  lemma ForwardTransitive<C>(s: System<C>, t: System<C>, u: System<C>)
    requires RowsInv(s) && Forward(s, t) && Forward(t, u)
    ensures Forward(s, u)
  {
    forall id | id in s.outbox && id !in u.outbox ensures id in s.enqueued && Logged(u.log, id, s.enqueued[id]) {
      if id !in t.outbox { assert Logged(t.log, id, s.enqueued[id]); }
    }
  }

  lemma {:induction false} RunKeepsInv<C>(s: System<C>, acts: seq<Action<C>>)
    requires Inv(s) && Exec(s, acts).Some?
    ensures Inv(Exec(s, acts).value) && Forward(s, Exec(s, acts).value)
    decreases |acts|
  {
    if acts == [] {
    } else {
      var t := Apply(s, acts[0]);
      StepKeepsInv(s, acts[0]);
      RunKeepsInv(t, acts[1..]);
      ForwardTransitive(s, t, Exec(s, acts).value);
    }
  }

  // ----- Main results -----

  /**
   * Conservation: in every run, every event a committed transaction enqueued is waiting in the outbox
   * or in the log with identical content, no id is in the log twice, and no logged event differs from
   * what was enqueued under its id.
   */
  lemma NoEventIsLost<C>(acts: seq<Action<C>>)
    ensures var r := Exec(Initial(), acts); r.Some? ==> Safe(r.value)
  {
    var s: System<C> := Initial();
    assert Inv(s);
    if Exec(s, acts).Some? {
      RunKeepsInv(s, acts);
    }
  }

  /**
   * History: from any point of any run on, the log only grows at its end, what was enqueued stays
   * enqueued, and an outbox row that disappears left its event in the log.
   */
  lemma LogOnlyGrows<C>(before: seq<Action<C>>, after: seq<Action<C>>)
    ensures var r := Exec(Initial(), before);
      r.Some? ==> var u := Exec(r.value, after); u.Some? ==> Forward(r.value, u.value)
  {
    var s: System<C> := Initial();
    assert Inv(s);
    var r := Exec(s, before);
    if r.Some? {
      RunKeepsInv(s, before);
      if Exec(r.value, after).Some? {
        RunKeepsInv(r.value, after);
      }
    }
  }

  /**
   * What a stale snapshot costs: after the delivery a claimed row still waits exactly when its event
   * was already logged but the snapshot is too old to show it. It is never lost, only left for later.
   */
  lemma LeftForLater<C>(s: System<C>, w: nat, now: int, x: Id)
    requires Inv(s) && Enabled(s, Deliver(w, now)) && x in s.workers[w].ids
    ensures var t := Apply(s, Deliver(w, now));
      && Logged(t.log, x, s.enqueued[x])
      && (x in Pending(t.outbox) <==> x in Ids(s.log) && x !in s.workers[w].seen)
  {
    DeliverKeepsSafe(s, w, now);
    var t := Apply(s, Deliver(w, now));
    assert WorkerInv(s, s.workers[w]);
    assert x in Elements(s.workers[w].ids);
    assert RowsInv(s);
    var e :| e in t.log && e.id == x;
    assert e == Event(x, s.enqueued[x]);
  }

  /**
   * The store's one-statement delivery is the three steps of the protocol with nothing in between,
   * and then nothing that was claimed is left for later.
   */
  lemma SerialDelivery<C>(s: System<C>, w: nat, now: int, limit: nat)
    requires Inv(s) && w !in s.workers && Locked(s) == {}
    ensures var acts := [Start(w), Claim(w, ClaimIds(s.outbox, now, limit), now), Deliver(w, now)];
      var r := Exec(s, acts);
      && r.Some?
      && r.value.outbox == AfterDelivery(s.outbox, limit, now)
      && DeliveryOf(s.outbox, s.log, limit, now, |Pending(s.outbox)| - |Pending(r.value.outbox)|, r.value.outbox, r.value.log)
  {
    var ids := ClaimIds(s.outbox, now, limit);
    var s1 := Apply(s, Start(w));
    ClaimAlone(s, w, now, limit);
    var s2 := Apply(s1, Claim(w, ids, now));
    DeliverAlone(s2, w, now, limit);
    ExecThree(s, [Start(w), Claim(w, ids, now), Deliver(w, now)], s1, s2, Apply(s2, Deliver(w, now)));
  }

  lemma ClaimAlone<C>(s: System<C>, w: nat, now: int, limit: nat)
    requires w !in s.workers && Locked(s) == {}
    ensures Enabled(Apply(s, Start(w)), Claim(w, ClaimIds(s.outbox, now, limit), now))
  {
    var s1 := Apply(s, Start(w));
    ClaimSpec(s.outbox, now, limit);
    assert Locked(s1) == {} by {
      assert forall v, x | v in s1.workers && s1.workers[v].Holding? && x in s1.workers[v].ids :: x in Locked(s);
    }
  }

  lemma DeliverAlone<C>(s: System<C>, w: nat, now: int, limit: nat)
    requires UniqueIds(s.log) && w in s.workers && s.workers[w] == Holding(ClaimIds(s.outbox, now, limit), Ids(s.log))
    ensures Enabled(s, Deliver(w, now))
    ensures var t := Apply(s, Deliver(w, now));
      DeliveryOf(s.outbox, s.log, limit, now, |Pending(s.outbox)| - |Pending(t.outbox)|, t.outbox, t.log)
  {
    hide ClaimIds, DeliversOldest, LogGains, Pending, AfterDelivery, MarkProcessed;
    DeliverySpec(s.outbox, s.log, limit, now);
    DeliveredMarks(s.outbox, limit, now);
    DeliveredDifference(s.outbox, s.log, limit, now);
  }

  /** Enqueueing alone is the store's insert, and the commit makes the row pending. */
  lemma SerialEnqueue<C>(s: System<C>, tx: nat, id: Id, content: C, now: int)
    requires tx !in s.drafts && Fresh(s, id)
    ensures var r := Exec(s, [Begin(tx, id, content)] + [Commit(tx, now)]);
      && r.Some? && r.value.outbox == s.outbox[id := Row(content, now, now, None)] && r.value.log == s.log
      && r.value.drafts == s.drafts && id in Pending(r.value.outbox)
  {
    var s1 := Apply(s, Begin(tx, id, content));
    ExecTwo(s, Begin(tx, id, content), Commit(tx, now));
    assert s1.drafts - {tx} == s.drafts;
  }

  /** The store's one-statement purge is the two steps with nothing in between. */
  lemma SerialPurge<C>(s: System<C>, p: nat, before: int, limit: nat)
    requires p !in s.purges && Locked(s) == {}
    ensures var rows := PurgeIds(s.outbox, before, limit);
      var r := Exec(s, [PurgeSelect(p, rows, before)] + [PurgeDelete(p)]);
      && r.Some? && r.value.log == s.log
      && PurgeOf(s.outbox, before, limit, |rows|, r.value.outbox)
  {
    hide PurgeIds, PurgesOldest, Pending, Remove, Exec;
    var rows := PurgeIds(s.outbox, before, limit);
    PurgedAreOld(s.outbox, before, limit);
    PurgeSpec(s.outbox, before, limit);
    var s1 := Apply(s, PurgeSelect(p, rows, before));
    assert Locked(s1) == {} by {
      assert forall v, x | v in s1.workers && s1.workers[v].Holding? && x in s1.workers[v].ids :: x in Locked(s);
    }
    ExecTwo(s, PurgeSelect(p, rows, before), PurgeDelete(p));
  }

  /** A replay makes the row pending again, as it was when it was enqueued, and touches nothing else. */
  lemma ReplayWrites<C>(s: System<C>, id: Id)
    ensures Enabled(s, Replay(id)) ==>
      var t := Apply(s, Replay(id));
      && id in Pending(t.outbox) && t.outbox.Keys == s.outbox.Keys && t.outbox[id].content == s.outbox[id].content
      && t.outbox[id].availableAt == s.outbox[id].availableAt && (forall x | x in s.outbox && x != id :: t.outbox[x] == s.outbox[x])
      && t == s.(outbox := t.outbox)
  {
  }

  lemma ExecTwo<C>(s: System<C>, a: Action<C>, b: Action<C>)
    requires Enabled(s, a) && Enabled(Apply(s, a), b)
    ensures Exec(s, [a] + [b]) == Some(Apply(Apply(s, a), b))
  {
    var acts := [a] + [b];
    assert acts[1..] == [b] && [b][1..] == [];
    assert Exec(Apply(s, a), [b]) == Exec(Apply(Apply(s, a), b), []);
  }

  lemma ExecThree<C>(s: System<C>, acts: seq<Action<C>>, s1: System<C>, s2: System<C>, s3: System<C>)
    requires |acts| == 3 && Enabled(s, acts[0]) && s1 == Apply(s, acts[0])
    requires Enabled(s1, acts[1]) && s2 == Apply(s1, acts[1])
    requires Enabled(s2, acts[2]) && s3 == Apply(s2, acts[2])
    ensures Exec(s, acts) == Some(s3)
  {
    var rest := acts[1..];
    var last := rest[1..];
    assert last == [acts[2]] && last[1..] == [];
    assert Exec(s2, last) == Exec(s3, []);
    assert Exec(s1, rest) == Exec(s2, last);
  }

  /**
   * Why ids must be fresh: a claimed row's content reaches the log if and only if its id was not
   * already taken there by an event with other content.
   */
  lemma FreshIdsAreNeeded<C>(log: seq<Event<C>>, outbox: map<Id, Row<C>>, ids: seq<Id>, x: Id)
    requires UniqueIds(log) && x in ids && forall y | y in ids :: y in outbox
    ensures Logged(InsertMissing(log, outbox, ids), x, outbox[x].content)
        <==> x !in Ids(log) || Logged(log, x, outbox[x].content)
  {
    InsertMissingSpec(log, outbox, ids);
    var r := InsertMissing(log, outbox, ids);
    assert x in Elements(ids) && x in Ids(r);
    var e :| e in r && e.id == x;
    assert e in log || e == Event(x, outbox[x].content);
    assert Event(x, outbox[x].content) in r ==> e == Event(x, outbox[x].content);
  }

  // ----- What is delivered is what was put in -----

  ghost predicate LogHolds<C>(log: seq<Event<C>>, p: (Id, C) -> bool) {
    forall e | e in log :: p(e.id, e.content)
  }

  /** Everything a system holds satisfies p. */
  ghost predicate AllHold<C>(s: System<C>, p: (Id, C) -> bool) {
    && (forall tx | tx in s.drafts :: p(s.drafts[tx].id, s.drafts[tx].content))
    && (forall id | id in s.outbox :: p(id, s.outbox[id].content))
    && LogHolds(s.log, p)
  }

  ghost predicate Admits<C>(a: Action<C>, p: (Id, C) -> bool) {
    a.Begin? || a.RecordDirectly? ==> p(a.id, a.content)
  }

  lemma StepAllHold<C>(s: System<C>, a: Action<C>, p: (Id, C) -> bool)
    requires AllHold(s, p) && Enabled(s, a) && Admits(a, p)
    ensures AllHold(Apply(s, a), p)
  {
    var t := Apply(s, a);
    match a {
      case RecordDirectly(id, content) => assert forall e | e in t.log :: e in s.log || e == Event(id, content);
      case Deliver(w, now) =>
        InsertMissingSpec(s.log, s.outbox, s.workers[w].ids);
        assert forall e | e in t.log :: e in s.log || e.content == s.outbox[e.id].content;
      case _ =>
    }
  }

  /** What holds of every event that enters a run holds of every row of the outbox and of the log. */
  lemma {:induction false} RunAllHold<C>(s: System<C>, acts: seq<Action<C>>, p: (Id, C) -> bool)
    requires AllHold(s, p) && Exec(s, acts).Some? && forall i | 0 <= i < |acts| :: Admits(acts[i], p)
    ensures AllHold(Exec(s, acts).value, p)
    decreases |acts|
  {
    if acts == [] {
    } else {
      assert Admits(acts[0], p);
      StepAllHold(s, acts[0], p);
      RunAllHold(Apply(s, acts[0]), acts[1..], p);
    }
  }
}
