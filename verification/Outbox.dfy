/**
 * The security audit outbox: what one statement of the store does to the two tables.
 * `C` is the signed content of an event; the delivery never looks inside it.
 */
module Outbox {
  import opened Common
  import opened OrderLimit

  type Id = nat

  datatype Row<C> = Row(content: C, availableAt: int, createdAt: int, processedAt: Option<int>)

  datatype Event<C> = Event(id: Id, content: C)

  ghost predicate Distinct<T>(s: seq<T>) {
    forall i, j | 0 <= i < j < |s| :: s[i] != s[j]
  }

  function Ids<C(==)>(log: seq<Event<C>>): set<Id> {
    set e | e in log :: e.id
  }

  /** The primary key of the event table. */
  ghost predicate UniqueIds<C>(log: seq<Event<C>>) {
    forall i, j | 0 <= i < j < |log| :: log[i].id != log[j].id
  }

  /** Rows a delivery statement may claim at `now`, skipping the locked ones. */
  function Eligible<C>(outbox: map<Id, Row<C>>, locked: set<Id>, now: int): set<Id> {
    set x | x in outbox && x !in locked && outbox[x].processedAt.None? && outbox[x].availableAt <= now
  }

  /** The delivery order of some rows: available_at, created_at, id. */
  function KeysOf<C>(outbox: map<Id, Row<C>>, ids: set<Id>): set<Key>
    requires ids <= outbox.Keys
  {
    set x | x in ids :: Key(outbox[x].availableAt, outbox[x].createdAt, x)
  }

  function Queue<C>(outbox: map<Id, Row<C>>, now: int): set<Key> {
    KeysOf(outbox, Eligible(outbox, {}, now))
  }

  function ClaimIds<C>(outbox: map<Id, Row<C>>, now: int, limit: nat): seq<Id> {
    KeyIds(Take(Queue(outbox, now), limit))
  }

  /** INSERT ... SELECT FROM claimed ON CONFLICT (id) DO NOTHING. */
  function InsertMissing<C(==)>(log: seq<Event<C>>, outbox: map<Id, Row<C>>, ids: seq<Id>): seq<Event<C>>
    requires forall x | x in ids :: x in outbox
    decreases |ids|
  {
    if ids == [] then log
    else
      var x := ids[0];
      InsertMissing(if x in Ids(log) then log else log + [Event(x, outbox[x].content)], outbox, ids[1..])
  }

  /** Claimed ids that this statement inserted, or that its snapshot already saw in the event table. */
  function Marked<C(==)>(log: seq<Event<C>>, seen: set<Id>, ids: seq<Id>): set<Id> {
    set x | x in ids && (x !in Ids(log) || x in seen)
  }

  function MarkProcessed<C>(outbox: map<Id, Row<C>>, ids: set<Id>, now: int): map<Id, Row<C>> {
    map x | x in outbox :: if x in ids then outbox[x].(processedAt := Some(now)) else outbox[x]
  }

  /** Retention order of the rows processed before `before`: processed_at, id. */
  function Expendable<C>(outbox: map<Id, Row<C>>, before: int): set<Key> {
    set x | x in outbox && outbox[x].processedAt.Some? && outbox[x].processedAt.value < before
      :: Key(outbox[x].processedAt.value, 0, x)
  }

  function PurgeIds<C>(outbox: map<Id, Row<C>>, before: int, limit: nat): set<Id> {
    IdsOf(Elements(Take(Expendable(outbox, before), limit)))
  }

  function Remove<C>(outbox: map<Id, Row<C>>, ids: set<Id>): map<Id, Row<C>> {
    map x | x in outbox && x !in ids :: outbox[x]
  }

  function Pending<C>(outbox: map<Id, Row<C>>): set<Id> {
    set x | x in outbox && outbox[x].processedAt.None?
  }

  lemma InIds<C>(log: seq<Event<C>>, x: Id)
    ensures x in Ids(log) <==> exists i :: 0 <= i < |log| && log[i].id == x
  {
    if x in Ids(log) {
      var e :| e in log && e.id == x;
      var i :| 0 <= i < |log| && log[i] == e;
    }
  }

  /** `r` is `log` with the missing ones of `ids` appended, each once and with its row's content. */
  ghost predicate Extends<C>(log: seq<Event<C>>, r: seq<Event<C>>, outbox: map<Id, Row<C>>, ids: seq<Id>) {
    && log <= r
    && Ids(r) == Ids(log) + Elements(ids)
    && (UniqueIds(log) ==> UniqueIds(r))
    && (forall e | e in r && e !in log ::
          e.id in ids && e.id !in Ids(log) && e.id in outbox && e.content == outbox[e.id].content)
  }

  /** The insert only appends, adds exactly the claimed ids, keeps ids unique, and copies the row's content. */
  lemma {:induction false} InsertMissingSpec<C>(log: seq<Event<C>>, outbox: map<Id, Row<C>>, ids: seq<Id>)
    requires forall x | x in ids :: x in outbox
    ensures Extends(log, InsertMissing(log, outbox, ids), outbox, ids)
    decreases |ids|
  {
    if ids == [] {
    } else {
      var x := ids[0];
      var log1 := if x in Ids(log) then log else log + [Event(x, outbox[x].content)];
      if x !in Ids(log) { IdsAppend(log, Event(x, outbox[x].content)); }
      InsertMissingSpec(log1, outbox, ids[1..]);
      ExtendsStep(log, log1, InsertMissing(log, outbox, ids), outbox, ids);
    }
  }

  lemma IdsAppend<C>(log: seq<Event<C>>, e: Event<C>)
    requires e.id !in Ids(log)
    ensures Ids(log + [e]) == Ids(log) + {e.id}
    ensures UniqueIds(log) ==> UniqueIds(log + [e])
  {
    forall i | 0 <= i < |log| ensures log[i].id != e.id { InIds(log, e.id); }
    assert e in log + [e];
    assert forall x | x in log + [e] :: x in log || x == e;
  }

  lemma ExtendsStep<C>(log: seq<Event<C>>, log1: seq<Event<C>>, r: seq<Event<C>>, outbox: map<Id, Row<C>>, ids: seq<Id>)
    requires ids != [] && ids[0] in outbox && Ids(log1) == Ids(log) + {ids[0]} && (UniqueIds(log) ==> UniqueIds(log1))
    requires log1 == log || (ids[0] !in Ids(log) && log1 == log + [Event(ids[0], outbox[ids[0]].content)])
    requires Extends(log1, r, outbox, ids[1..])
    ensures Extends(log, r, outbox, ids)
  {
    assert Elements(ids) == {ids[0]} + Elements(ids[1..]);
    forall e | e in r && e !in log
      ensures e.id in ids && e.id !in Ids(log) && e.id in outbox && e.content == outbox[e.id].content
    {
      assert e in log1 || e.id in ids[1..];
    }
  }

  /** The claim is `limit` distinct eligible rows, or all of them, oldest first. */
  lemma ClaimSpec<C>(outbox: map<Id, Row<C>>, now: int, limit: nat)
    ensures var ids := ClaimIds(outbox, now, limit);
      && Distinct(ids)
      && Elements(ids) <= Eligible(outbox, {}, now)
      && |ids| == Min(limit, |Eligible(outbox, {}, now)|)
  {
    var q := Queue(outbox, now);
    TakeIsTake(q, limit);
    var ks := Take(q, limit);
    var ids := ClaimIds(outbox, now, limit);
    forall i | 0 <= i < |ids| ensures ids[i] in Eligible(outbox, {}, now) {
      assert ks[i] in Elements(ks);
    }
    forall i, j | 0 <= i < j < |ids| ensures ids[i] != ids[j] {
      assert ks[i] in Elements(ks) && ks[j] in Elements(ks);
      assert Less(ks[i], ks[j]);
    }
    KeysCard(outbox, Eligible(outbox, {}, now));
  }

  lemma {:induction false} KeysCard<C>(outbox: map<Id, Row<C>>, s: set<Id>)
    requires s <= outbox.Keys
    ensures |KeysOf(outbox, s)| == |s|
  {
    if s == {} {
      assert KeysOf(outbox, s) == {};
    } else {
      var y :| y in s;
      KeysCard(outbox, s - {y});
      var ky := Key(outbox[y].availableAt, outbox[y].createdAt, y);
      assert KeysOf(outbox, s) == KeysOf(outbox, s - {y}) + {ky};
      assert ky !in KeysOf(outbox, s - {y});
    }
  }

  lemma KeysOfClaim<C>(outbox: map<Id, Row<C>>, now: int, limit: nat)
    ensures var ids := Elements(ClaimIds(outbox, now, limit));
      ids <= outbox.Keys && Elements(Take(Queue(outbox, now), limit)) == KeysOf(outbox, ids)
  {
    ClaimSpec(outbox, now, limit);
    TakeIsTake(Queue(outbox, now), limit);
    var ks := Take(Queue(outbox, now), limit);
    var ids := ClaimIds(outbox, now, limit);
    assert forall i | 0 <= i < |ks| :: ks[i] in Elements(ks) && ids[i] == ks[i].id && ids[i] in Elements(ids);
    assert forall k | k in ks :: k.id in Elements(ids) && k == Key(outbox[k.id].availableAt, outbox[k.id].createdAt, k.id);
    forall x | x in Elements(ids) ensures Key(outbox[x].availableAt, outbox[x].createdAt, x) in ks {
      var i :| 0 <= i < |ids| && ids[i] == x;
      assert ks[i] in ks;
    }
  }

  // ----- What the two statements do, row by row -----

  /** ORDER BY available_at, created_at, id. */
  ghost predicate DeliveredBefore<C>(o: map<Id, Row<C>>, x: Id, y: Id)
    requires x in o && y in o
  {
    || o[x].availableAt < o[y].availableAt
    || (o[x].availableAt == o[y].availableAt && o[x].createdAt < o[y].createdAt)
    || (o[x].availableAt == o[y].availableAt && o[x].createdAt == o[y].createdAt && x < y)
  }

  ghost function Due<C>(o: map<Id, Row<C>>, now: int): set<Id> {
    set x | x in o && o[x].processedAt.None? && o[x].availableAt <= now
  }

  ghost function Old<C>(o: map<Id, Row<C>>, before: int): set<Id> {
    set x | x in o && o[x].processedAt.Some? && o[x].processedAt.value < before
  }

  ghost predicate PurgedBefore<C>(o: map<Id, Row<C>>, x: Id, y: Id)
    requires x in o && y in o && o[x].processedAt.Some? && o[y].processedAt.Some?
  {
    || o[x].processedAt.value < o[y].processedAt.value
    || (o[x].processedAt.value == o[y].processedAt.value && x < y)
  }

  /** The rows that were pending and are processed now. */
  ghost function NewlyProcessed<C>(o: map<Id, Row<C>>, o': map<Id, Row<C>>): set<Id> {
    set x | x in o && x in o' && o[x].processedAt.None? && o'[x].processedAt.Some?
  }

  /** `limit` of the due rows, or all, the oldest first, are marked, and no other row changes. */
  ghost predicate DeliversOldest<C>(o: map<Id, Row<C>>, limit: nat, now: int, delivered: int, o': map<Id, Row<C>>) {
    var due := Due(o, now);
    var taken := NewlyProcessed(o, o');
    && o'.Keys == o.Keys && taken <= due && delivered == |taken| == Min(limit, |due|)
    && (forall x | x in taken :: o'[x] == o[x].(processedAt := Some(now)))
    && (forall x | x in o && x !in taken :: o'[x] == o[x])
    && (forall x, y | x in taken && y in due - taken :: DeliveredBefore(o, x, y))
  }

  /** The log keeps what it has, and gains one event for each taken row whose id it lacks, with the row's content. */
  ghost predicate LogGains<C>(log: seq<Event<C>>, log': seq<Event<C>>, o: map<Id, Row<C>>, taken: set<Id>) {
    && log <= log' && Ids(log') == Ids(log) + taken && (UniqueIds(log) ==> UniqueIds(log'))
    && forall e | e in log' && e !in log :: e.id in taken && e.id !in Ids(log) && e.id in o && e.content == o[e.id].content
  }

  /** `limit` of the rows processed before `before`, or all, by time and id, are gone; every other row is as it was. */
  ghost predicate PurgesOldest<C>(o: map<Id, Row<C>>, before: int, limit: nat, deleted: int, o': map<Id, Row<C>>) {
    var due := Old(o, before);
    var gone := o.Keys - o'.Keys;
    && o'.Keys <= o.Keys && gone <= due && deleted == |gone| == Min(limit, |due|)
    && (forall x | x in o' :: o'[x] == o[x])
    && (forall x, y | x in gone && y in due - gone :: PurgedBefore(o, x, y))
  }

  lemma ClaimsOldest<C>(outbox: map<Id, Row<C>>, now: int, limit: nat)
    ensures DeliversOldest(outbox, limit, now, |Elements(ClaimIds(outbox, now, limit))|, AfterDelivery(outbox, limit, now))
    ensures NewlyProcessed(outbox, AfterDelivery(outbox, limit, now)) == Elements(ClaimIds(outbox, now, limit))
  {
    hide Queue;
    hide ClaimIds;
    QueueIds(outbox, now, limit);
    TakenIds(Queue(outbox, now), limit);
    assert NewlyProcessed(outbox, AfterDelivery(outbox, limit, now)) == Elements(ClaimIds(outbox, now, limit));
    forall x, y | x in Elements(ClaimIds(outbox, now, limit)) && y in Due(outbox, now) - Elements(ClaimIds(outbox, now, limit))
      ensures DeliveredBefore(outbox, x, y)
    {
      QueueOrder(outbox, now, x, y);
    }
  }

  lemma QueueOrder<C>(outbox: map<Id, Row<C>>, now: int, x: Id, y: Id)
    requires x in Due(outbox, now) && y in Due(outbox, now)
    ensures exists a, b :: a in Queue(outbox, now) && b in Queue(outbox, now) && a.id == x && b.id == y
                           && (Less(a, b) ==> DeliveredBefore(outbox, x, y))
  {
    var kx, ky := Key(outbox[x].availableAt, outbox[x].createdAt, x), Key(outbox[y].availableAt, outbox[y].createdAt, y);
    assert kx in Queue(outbox, now) && ky in Queue(outbox, now) && kx.id == x && ky.id == y;
  }

  lemma QueueIds<C>(outbox: map<Id, Row<C>>, now: int, limit: nat)
    ensures IdsOf(Queue(outbox, now)) == Due(outbox, now)
    ensures forall a, b | a in Queue(outbox, now) && b in Queue(outbox, now) && a.id == b.id :: a == b
    ensures IdsOf(Elements(Take(Queue(outbox, now), limit))) == Elements(ClaimIds(outbox, now, limit))
  {
    var q := Queue(outbox, now);
    forall x | x in Eligible(outbox, {}, now) ensures x in IdsOf(q) {
      assert Key(outbox[x].availableAt, outbox[x].createdAt, x) in q;
    }
    var ks, ids := Take(q, limit), ClaimIds(outbox, now, limit);
    forall x ensures x in IdsOf(Elements(ks)) <==> x in Elements(ids) {
      if x in IdsOf(Elements(ks)) {
        var i :| 0 <= i < |ks| && ks[i].id == x;
        assert ids[i] == x;
      }
      if x in Elements(ids) {
        var i :| 0 <= i < |ids| && ids[i] == x;
        assert ks[i] in Elements(ks);
      }
    }
  }

  lemma OldIds<C>(outbox: map<Id, Row<C>>, before: int)
    ensures IdsOf(Expendable(outbox, before)) == Old(outbox, before)
    ensures forall a, b | a in Expendable(outbox, before) && b in Expendable(outbox, before) && a.id == b.id :: a == b
  {
    forall x | x in Old(outbox, before) ensures x in IdsOf(Expendable(outbox, before)) {
      assert Key(outbox[x].processedAt.value, 0, x) in Expendable(outbox, before);
    }
  }

  lemma OldOrder<C>(outbox: map<Id, Row<C>>, before: int, x: Id, y: Id)
    requires x in Old(outbox, before) && y in Old(outbox, before)
    ensures exists a, b :: a in Expendable(outbox, before) && b in Expendable(outbox, before) && a.id == x && b.id == y
                           && (Less(a, b) ==> PurgedBefore(outbox, x, y))
  {
    var kx, ky := Key(outbox[x].processedAt.value, 0, x), Key(outbox[y].processedAt.value, 0, y);
    assert kx in Expendable(outbox, before) && ky in Expendable(outbox, before) && kx.id == x && ky.id == y;
  }

  lemma PurgedAreOld<C>(outbox: map<Id, Row<C>>, before: int, limit: nat)
    ensures PurgeIds(outbox, before, limit) <= Old(outbox, before)
  {
    hide Expendable;
    OldIds(outbox, before);
    TakenIds(Expendable(outbox, before), limit);
  }

  lemma RemovalKeepsPending<C>(outbox: map<Id, Row<C>>, ids: set<Id>)
    requires forall x | x in ids :: x in outbox && outbox[x].processedAt.Some?
    ensures Pending(Remove(outbox, ids)) == Pending(outbox)
  {
  }

  lemma PurgeIsOldest<C>(outbox: map<Id, Row<C>>, before: int, limit: nat)
    ensures PurgesOldest(outbox, before, limit, |PurgeIds(outbox, before, limit)|, Remove(outbox, PurgeIds(outbox, before, limit)))
  {
    hide Expendable;
    var ids := PurgeIds(outbox, before, limit);
    OldIds(outbox, before);
    TakenIds(Expendable(outbox, before), limit);
    assert outbox.Keys - Remove(outbox, ids).Keys == ids;
    forall x, y | x in ids && y in Old(outbox, before) - ids ensures PurgedBefore(outbox, x, y) {
      OldOrder(outbox, before, x, y);
    }
  }

  /**
   * The store: its two tables are fields that the statements rewrite in place, and each method is
   * one statement run with no other statement in between. Interleavings are in OutboxProtocol.
   */
  class AuditStore<C(==)> {
    var outbox: map<Id, Row<C>>
    var events: seq<Event<C>>

    constructor ()
      ensures outbox == map[] && events == []
    {
      outbox, events := map[], [];
    }

    /** INSERT into the outbox; a duplicate primary key is an error and changes nothing. */
    method CreateOutboxEvent(id: Id, content: C, now: int) returns (ok: bool)
      modifies this`outbox
      ensures ok <==> id !in old(outbox)
      ensures ok ==> outbox == old(outbox)[id := Row(content, now, now, None)]
      ensures !ok ==> outbox == old(outbox)
    {
      if id in outbox { return false; }
      outbox := outbox[id := Row(content, now, now, None)];
      return true;
    }

    /** The claim, the insert and the mark of one delivery statement. */
    method DeliverBatch(limit: int, now: int) returns (delivered: nat)
      modifies this
      ensures limit <= 0 ==> delivered == 0 && outbox == old(outbox) && events == old(events)
      ensures limit > 0 ==> DeliveryOf(old(outbox), old(events), limit, now, delivered, outbox, events)
    {
      if limit <= 0 { return 0; }
      var ids := ClaimIds(outbox, now, limit);
      DeliverySpec(outbox, events, limit, now);
      var marked := Marked(events, Ids(events), ids);
      events := InsertMissing(events, outbox, ids);
      outbox := MarkProcessed(outbox, marked, now);
      return |marked|;
    }

    /** The retention DELETE: only processed rows, oldest first, at most `limit` of them. */
    method DeleteProcessedBefore(before: int, limit: int) returns (deleted: nat)
      modifies this`outbox
      ensures limit <= 0 ==> deleted == 0 && outbox == old(outbox)
      ensures limit > 0 ==> PurgeOf(old(outbox), before, limit, deleted, outbox)
    {
      if limit <= 0 { return 0; }
      PurgeSpec(outbox, before, limit);
      var ids := PurgeIds(outbox, before, limit);
      outbox := Remove(outbox, ids);
      return |ids|;
    }

    method CountPending() returns (n: nat)
      ensures n == |Pending(outbox)|
    {
      n := |Pending(outbox)|;
    }
  }

  /** The retention statement deletes what it should, and so leaves every pending row. */
  lemma PurgeSpec<C>(outbox: map<Id, Row<C>>, before: int, limit: nat)
    ensures PurgesOldest(outbox, before, limit, |PurgeIds(outbox, before, limit)|, Remove(outbox, PurgeIds(outbox, before, limit)))
    ensures Pending(Remove(outbox, PurgeIds(outbox, before, limit))) == Pending(outbox)
  {
    hide PurgeIds;
    PurgeIsOldest(outbox, before, limit);
    PurgedAreOld(outbox, before, limit);
    RemovalKeepsPending(outbox, PurgeIds(outbox, before, limit));
  }

  datatype RunResult = RunResult(delivered: nat, deleted: nat, pending: nat)

  /** Which of the three statements of a run the database answers. */
  datatype Answers = Answers(deliver: bool, purge: bool, count: bool)

  /** The audit worker: fills in missing settings, then delivers, purges and counts. */
  class OutboxWorker {
    var batchSize: int
    var retention: int
    var cleanupBatchSize: int

    constructor (batchSize: int, retention: int, cleanupBatchSize: int)
      ensures this.batchSize == batchSize && this.retention == retention && this.cleanupBatchSize == cleanupBatchSize
    {
      this.batchSize, this.retention, this.cleanupBatchSize := batchSize, retention, cleanupBatchSize;
    }

    /**
     * Times are nanoseconds; the default retention is seven days. A statement that fails ends the run
     * with what was counted so far.
     */
    method RunOnce<C(==)>(store: AuditStore<C>, dbNow: int, now: int, answers: Answers) returns (ok: bool, result: RunResult)
      modifies this, store
      ensures batchSize == if old(batchSize) > 0 then old(batchSize) else 100
      ensures retention == if old(retention) > 0 then old(retention) else 7 * 24 * 3600 * 1_000_000_000
      ensures cleanupBatchSize == if old(cleanupBatchSize) > 0 then old(cleanupBatchSize) else 500
      ensures OutcomeOf(old(store.outbox), old(store.events), batchSize, dbNow, now - retention, cleanupBatchSize, answers,
                        ok, result, store.outbox, store.events)
    {
      hide OutcomeOf;
      FillDefaults();
      ok, result := RunStatements(store, dbNow, now - retention, answers);
    }

    method RunStatements<C(==)>(store: AuditStore<C>, dbNow: int, before: int, answers: Answers) returns (ok: bool, result: RunResult)
      requires batchSize > 0 && cleanupBatchSize > 0
      modifies store
      ensures OutcomeOf(old(store.outbox), old(store.events), batchSize, dbNow, before, cleanupBatchSize, answers,
                        ok, result, store.outbox, store.events)
    {
      ghost var o, log := store.outbox, store.events;
      if answers.deliver {
        var delivered := store.DeliverBatch(batchSize, dbNow);
        ok, result := AfterDelivering(store, o, log, dbNow, before, answers, delivered);
      } else {
        NothingDone(o, log, batchSize, dbNow, before, cleanupBatchSize, answers);
        ok, result := false, RunResult(0, 0, 0);
      }
    }

    /** The statements after the delivery. */
    method AfterDelivering<C(==)>(store: AuditStore<C>, ghost o: map<Id, Row<C>>, ghost log: seq<Event<C>>, ghost dbNow: int,
                                  before: int, answers: Answers, delivered: nat) returns (ok: bool, result: RunResult)
      requires batchSize > 0 && cleanupBatchSize > 0 && answers.deliver
      requires DeliveryOf(o, log, batchSize, dbNow, delivered, store.outbox, store.events)
      modifies store`outbox
      ensures OutcomeOf(o, log, batchSize, dbNow, before, cleanupBatchSize, answers, ok, result, store.outbox, store.events)
    {
      if answers.purge {
        ok, result := Finish(store, o, log, dbNow, before, answers, delivered);
      } else {
        OnlyDelivered(o, log, batchSize, dbNow, before, cleanupBatchSize, answers, delivered, store.outbox, store.events);
        ok, result := false, RunResult(delivered, 0, 0);
      }
    }

    /** The last two statements of a run. */
    method Finish<C(==)>(store: AuditStore<C>, ghost o: map<Id, Row<C>>, ghost log: seq<Event<C>>, ghost dbNow: int, before: int,
                         answers: Answers, delivered: nat) returns (ok: bool, result: RunResult)
      requires batchSize > 0 && cleanupBatchSize > 0 && answers.deliver && answers.purge
      requires DeliveryOf(o, log, batchSize, dbNow, delivered, store.outbox, store.events)
      modifies store`outbox
      ensures OutcomeOf(o, log, batchSize, dbNow, before, cleanupBatchSize, answers, ok, result, store.outbox, store.events)
    {
      ghost var o1 := store.outbox;
      var deleted := store.DeleteProcessedBefore(before, cleanupBatchSize);
      var pending := 0;
      if answers.count { pending := store.CountPending(); }
      ok, result := answers.count, RunResult(delivered, deleted, pending);
      RunSummary(o, log, batchSize, dbNow, before, cleanupBatchSize, result.(pending := |Pending(store.outbox)|),
                 o1, store.outbox, store.events);
    }

    method FillDefaults()
      modifies this
      ensures batchSize == if old(batchSize) > 0 then old(batchSize) else 100
      ensures retention == if old(retention) > 0 then old(retention) else 7 * 24 * 3600 * 1_000_000_000
      ensures cleanupBatchSize == if old(cleanupBatchSize) > 0 then old(cleanupBatchSize) else 500
    {
      if batchSize <= 0 { batchSize := 100; }
      if retention <= 0 { retention := DEFAULT_RETENTION; }
      if cleanupBatchSize <= 0 { cleanupBatchSize := 500; }
    }
  }

  /** One delivery: how many, which rows are now processed, and what the event table gained. */
  ghost predicate DeliveryOf<C>(o: map<Id, Row<C>>, log: seq<Event<C>>, limit: nat, now: int,
                                delivered: int, o': map<Id, Row<C>>, log': seq<Event<C>>) {
    && DeliversOldest(o, limit, now, delivered, o')
    && LogGains(log, log', o, NewlyProcessed(o, o'))
    && o' == AfterDelivery(o, limit, now)
  }

  /** One retention statement. */
  ghost predicate PurgeOf<C>(o: map<Id, Row<C>>, before: int, limit: nat, deleted: int, o': map<Id, Row<C>>) {
    && PurgesOldest(o, before, limit, deleted, o')
    && Pending(o') == Pending(o)
    && o' == Remove(o, PurgeIds(o, before, limit))
  }

  /** One worker run: the counters it reports are the true ones. */
  ghost predicate RunOf<C>(o: map<Id, Row<C>>, log: seq<Event<C>>, limit: nat, now: int, before: int, cleanupLimit: nat,
                           result: RunResult, o': map<Id, Row<C>>, log': seq<Event<C>>) {
    && DeliveryOf(o, log, limit, now, result.delivered, AfterDelivery(o, limit, now), log')
    && PurgeOf(AfterDelivery(o, limit, now), before, cleanupLimit, result.deleted, o')
    && result.pending == |Pending(o)| - result.delivered == |Pending(o')|
    && o' == AfterRun(o, limit, now, before, cleanupLimit)
  }

  /** What a run leaves and reports, as far as the database answers its statements. */
  ghost predicate OutcomeOf<C>(o: map<Id, Row<C>>, log: seq<Event<C>>, limit: nat, now: int, before: int, cleanupLimit: nat,
                               answers: Answers, ok: bool, result: RunResult, o': map<Id, Row<C>>, log': seq<Event<C>>) {
    && (ok <==> answers.deliver && answers.purge && answers.count)
    && (!answers.deliver ==> result == RunResult(0, 0, 0) && o' == o && log' == log)
    && (answers.deliver && !answers.purge ==>
          result == RunResult(result.delivered, 0, 0) && DeliveryOf(o, log, limit, now, result.delivered, o', log'))
    && (answers.deliver && answers.purge ==>
          && result.pending == (if answers.count then |Pending(o')| else 0)
          && RunOf(o, log, limit, now, before, cleanupLimit, result.(pending := |Pending(o')|), o', log'))
  }

  lemma NothingDone<C>(o: map<Id, Row<C>>, log: seq<Event<C>>, limit: nat, now: int, before: int, cleanupLimit: nat, answers: Answers)
    requires !answers.deliver
    ensures OutcomeOf(o, log, limit, now, before, cleanupLimit, answers, false, RunResult(0, 0, 0), o, log)
  {
  }

  lemma OnlyDelivered<C>(o: map<Id, Row<C>>, log: seq<Event<C>>, limit: nat, now: int, before: int, cleanupLimit: nat,
                         answers: Answers, delivered: nat, o': map<Id, Row<C>>, log': seq<Event<C>>)
    requires answers.deliver && !answers.purge && DeliveryOf(o, log, limit, now, delivered, o', log')
    ensures OutcomeOf(o, log, limit, now, before, cleanupLimit, answers, false, RunResult(delivered, 0, 0), o', log')
  {
  }

  lemma RunSummary<C>(o: map<Id, Row<C>>, log: seq<Event<C>>, limit: nat, now: int, before: int, cleanupLimit: nat,
                      result: RunResult, o1: map<Id, Row<C>>, o2: map<Id, Row<C>>, log': seq<Event<C>>)
    requires DeliveryOf(o, log, limit, now, result.delivered, o1, log')
    requires PurgeOf(o1, before, cleanupLimit, result.deleted, o2) && result.pending == |Pending(o2)|
    ensures RunOf(o, log, limit, now, before, cleanupLimit, result, o2, log')
  {
    hide DeliversOldest;
    hide PurgesOldest;
    hide AfterDelivery;
    DeliveredCount(o, limit, now, result.delivered, o1);
    DeliveredLeavesPending(o, now, limit);
  }

  lemma DeliveredCount<C>(o: map<Id, Row<C>>, limit: nat, now: int, delivered: int, o': map<Id, Row<C>>)
    requires DeliversOldest(o, limit, now, delivered, o')
    ensures delivered == Min(limit, |Eligible(o, {}, now)|)
  {
    assert Due(o, now) == Eligible(o, {}, now);
  }

  const DEFAULT_RETENTION := 7 * 24 * 3600 * 1_000_000_000

  function AfterDelivery<C>(outbox: map<Id, Row<C>>, limit: nat, now: int): map<Id, Row<C>> {
    MarkProcessed(outbox, Elements(ClaimIds(outbox, now, limit)), now)
  }

  function AfterRun<C>(outbox: map<Id, Row<C>>, limit: nat, now: int, before: int, cleanupLimit: nat): map<Id, Row<C>> {
    var o := AfterDelivery(outbox, limit, now);
    Remove(o, PurgeIds(o, before, cleanupLimit))
  }

  /** One delivery is what its contract says, whatever the log holds. */
  lemma DeliverySpec<C>(o: map<Id, Row<C>>, log: seq<Event<C>>, limit: nat, now: int)
    ensures var ids := ClaimIds(o, now, limit);
      && (forall x | x in ids :: x in o)
      && Marked(log, Ids(log), ids) == Elements(ids)
      && DeliveryOf(o, log, limit, now, |Elements(ids)|, AfterDelivery(o, limit, now), InsertMissing(log, o, ids))
  {
    hide ClaimIds, DeliversOldest, AfterDelivery;
    var ids := ClaimIds(o, now, limit);
    ClaimSpec(o, now, limit);
    assert forall x | x in ids :: x in Elements(ids);
    InsertMissingSpec(log, o, ids);
    ClaimsOldest(o, now, limit);
  }

  lemma DeliveredMarks<C>(o: map<Id, Row<C>>, limit: nat, now: int)
    ensures AfterDelivery(o, limit, now) == MarkProcessed(o, Elements(ClaimIds(o, now, limit)), now)
  {
  }

  lemma DeliveredDifference<C>(o: map<Id, Row<C>>, log: seq<Event<C>>, limit: nat, now: int)
    ensures |Elements(ClaimIds(o, now, limit))| == |Pending(o)| - |Pending(AfterDelivery(o, limit, now))|
  {
    hide AfterDelivery, DeliversOldest;
    ClaimsOldest(o, now, limit);
    DeliveredCount(o, limit, now, |Elements(ClaimIds(o, now, limit))|, AfterDelivery(o, limit, now));
    DeliveredLeavesPending(o, now, limit);
  }

  /** Every delivered row leaves the pending set, and no other row does. */
  lemma DeliveredLeavesPending<C>(outbox: map<Id, Row<C>>, now: int, limit: nat)
    ensures |Pending(AfterDelivery(outbox, limit, now))| == |Pending(outbox)| - Min(limit, |Eligible(outbox, {}, now)|)
  {
    ClaimSpec(outbox, now, limit);
    var ids := ClaimIds(outbox, now, limit);
    ElementsCard(ids);
    PendingAfterMark(outbox, Elements(ids), now);
  }

  lemma PendingAfterMark<C>(outbox: map<Id, Row<C>>, ids: set<Id>, now: int)
    requires ids <= Pending(outbox)
    ensures |Pending(MarkProcessed(outbox, ids, now))| == |Pending(outbox)| - |ids|
  {
    assert Pending(MarkProcessed(outbox, ids, now)) == Pending(outbox) - ids;
    MinusCard(Pending(outbox), ids);
    assert Pending(outbox) * ids == ids;
  }

  // ----- Draining -----

  /** What can happen to the outbox while it drains; new rows become available only after `t`. */
  datatype Op<C> =
    | RunWorker(now: int, before: int, cleanupLimit: nat)
    | Enqueue(id: Id, row: Row<C>)

  ghost predicate AllowedAfter<C>(outbox: map<Id, Row<C>>, op: Op<C>, t: int) {
    match op
    case RunWorker(now, _, _) => now >= t
    case Enqueue(id, row) => id !in outbox && row.availableAt > t
  }

  function ApplyOp<C>(outbox: map<Id, Row<C>>, op: Op<C>, limit: nat): map<Id, Row<C>> {
    match op
    case RunWorker(now, before, cleanupLimit) => AfterRun(outbox, limit, now, before, cleanupLimit)
    case Enqueue(id, row) => outbox[id := row]
  }

  function ApplyOps<C>(outbox: map<Id, Row<C>>, ops: seq<Op<C>>, limit: nat): map<Id, Row<C>>
    decreases |ops|
  {
    if ops == [] then outbox else ApplyOps(ApplyOp(outbox, ops[0], limit), ops[1..], limit)
  }

  ghost predicate AllAllowed<C>(outbox: map<Id, Row<C>>, ops: seq<Op<C>>, limit: nat, t: int)
    decreases |ops|
  {
    ops == [] || (AllowedAfter(outbox, ops[0], t) && AllAllowed(ApplyOp(outbox, ops[0], limit), ops[1..], limit, t))
  }

  function Runs<C>(ops: seq<Op<C>>): nat {
    if ops == [] then 0 else (if ops[0].RunWorker? then 1 else 0) + Runs(ops[1..])
  }

  /** The rows that were already waiting at time `t`. */
  function Backlog<C>(outbox: map<Id, Row<C>>, t: int): set<Id> {
    set x | x in outbox && outbox[x].processedAt.None? && outbox[x].availableAt <= t
  }

  lemma RunLeavesBacklog<C>(outbox: map<Id, Row<C>>, limit: nat, now: int, before: int, cleanupLimit: nat, t: int)
    ensures Backlog(AfterRun(outbox, limit, now, before, cleanupLimit), t)
         == Backlog(outbox, t) - Elements(ClaimIds(outbox, now, limit))
  {
    hide PurgeIds;
    var o := AfterDelivery(outbox, limit, now);
    PurgedAreOld(o, before, cleanupLimit);
    assert Backlog(Remove(o, PurgeIds(o, before, cleanupLimit)), t) == Backlog(o, t);
  }

  lemma OneRunDrains<C>(outbox: map<Id, Row<C>>, limit: nat, now: int, before: int, cleanupLimit: nat, t: int)
    requires now >= t
    ensures |Backlog(AfterRun(outbox, limit, now, before, cleanupLimit), t)| == Max(0, |Backlog(outbox, t)| - limit)
  {
    var ids := Elements(ClaimIds(outbox, now, limit));
    KeysOfClaim(outbox, now, limit);
    var due := Backlog(outbox, t);
    DueKeys(outbox, now, t, ids);
    TakeDrainsBacklog(Queue(outbox, now), limit, t);
    KeysCard(outbox, due);
    KeysCard(outbox, due - ids);
    RunLeavesBacklog(outbox, limit, now, before, cleanupLimit, t);
  }

  lemma DueKeys<C>(outbox: map<Id, Row<C>>, now: int, t: int, ids: set<Id>)
    requires now >= t && ids <= outbox.Keys
    ensures UpTo(Queue(outbox, now), t) == KeysOf(outbox, Backlog(outbox, t))
    ensures UpTo(Queue(outbox, now) - KeysOf(outbox, ids), t) == KeysOf(outbox, Backlog(outbox, t) - ids)
  {
  }

  lemma OneMore(r: nat, limit: nat)
    ensures (1 + r) * limit == limit + r * limit >= limit
  {
  }

  /**
   * Draining: among any enqueues of later work, r serial runs with batch size `limit` leave
   * exactly max(0, n - r * limit) of the n rows that were waiting at time `t`.
   */
  lemma {:induction false} RunsDrainTheBacklog<C>(outbox: map<Id, Row<C>>, ops: seq<Op<C>>, limit: nat, t: int)
    requires AllAllowed(outbox, ops, limit, t)
    ensures |Backlog(ApplyOps(outbox, ops, limit), t)| == Max(0, |Backlog(outbox, t)| - Runs(ops) * limit)
    decreases |ops|
  {
    if ops == [] {
    } else {
      var o := ApplyOp(outbox, ops[0], limit);
      RunsDrainTheBacklog(o, ops[1..], limit, t);
      match ops[0] {
        case RunWorker(now, before, cleanupLimit) =>
          OneRunDrains(outbox, limit, now, before, cleanupLimit, t);
          assert Runs(ops) == 1 + Runs(ops[1..]);
          OneMore(Runs(ops[1..]), limit);
        case Enqueue(id, row) =>
          assert Backlog(o, t) == Backlog(outbox, t);
      }
    }
  }
}
