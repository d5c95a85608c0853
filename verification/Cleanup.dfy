/**
 * The cleanup worker: it marks overdue shipments expired, and removes shipments deleted longer ago than
 * the grace period, objects first, rows after. S3 and the database may refuse any single call.
 */
module Cleanup {
  import opened Common
  import opened OrderLimit
  import opened Shipments

  type ShipmentId = nat
  type FileId = nat
  type ObjectKey = nat

  datatype File = File(shipment: ShipmentId, key: ObjectKey)

  const DEFAULT_BATCH := 100
  const DEFAULT_GRACE := 24 * 3600 * 1_000_000_000
  const DEFAULT_RETRIES := 3

  predicate Overdue(s: Shipment, now: int) {
    s.expiresAt < now && s.status !in {Deleted, Expired, Revoked}
  }

  predicate Removable(s: Shipment, before: int) {
    s.status == Deleted && s.deletedAt.Some? && s.deletedAt.value < before
  }

  /** ORDER BY expires_at, and ORDER BY deleted_at: `tie` is how the database happens to order equal times. */
  function ExpiryQueue(rows: map<ShipmentId, Shipment>, now: int, tie: ShipmentId -> int): set<Key> {
    set x | x in rows && Overdue(rows[x], now) :: Key(rows[x].expiresAt, tie(x), x)
  }

  function RemovalQueue(rows: map<ShipmentId, Shipment>, before: int, tie: ShipmentId -> int): set<Key> {
    set x | x in rows && Removable(rows[x], before) :: Key(rows[x].deletedAt.value, tie(x), x)
  }

  function ExpiryIds(rows: map<ShipmentId, Shipment>, now: int, tie: ShipmentId -> int, limit: nat): seq<ShipmentId> {
    KeyIds(Take(ExpiryQueue(rows, now, tie), limit))
  }

  function RemovalIds(rows: map<ShipmentId, Shipment>, before: int, tie: ShipmentId -> int, limit: nat): seq<ShipmentId> {
    KeyIds(Take(RemovalQueue(rows, before, tie), limit))
  }

  ghost predicate Distinct(ids: seq<ShipmentId>) {
    forall i, j | 0 <= i < j < |ids| :: ids[i] != ids[j]
  }

  ghost predicate AllIn(ids: seq<ShipmentId>, rows: map<ShipmentId, Shipment>) {
    forall i | 0 <= i < |ids| :: ids[i] in rows
  }

  ghost predicate AllOverdue(ids: seq<ShipmentId>, rows: map<ShipmentId, Shipment>, now: int) {
    forall i | 0 <= i < |ids| :: ids[i] in rows && Overdue(rows[ids[i]], now)
  }

  ghost predicate AllRemovable(ids: seq<ShipmentId>, rows: map<ShipmentId, Shipment>, before: int) {
    forall i | 0 <= i < |ids| :: ids[i] in rows && Removable(rows[ids[i]], before)
  }

  lemma ExpiryListing(rows: map<ShipmentId, Shipment>, now: int, tie: ShipmentId -> int, limit: nat)
    ensures var ids := ExpiryIds(rows, now, tie, limit);
      Distinct(ids) && AllOverdue(ids, rows, now)
  {
    var s := ExpiryQueue(rows, now, tie);
    TakeIsTake(s, limit);
    forall i | 0 <= i < |Take(s, limit)| ensures Take(s, limit)[i] in s { assert Take(s, limit)[i] in Elements(Take(s, limit)); }
    assert forall i, j | 0 <= i < j < |Take(s, limit)| :: Less(Take(s, limit)[i], Take(s, limit)[j]);
  }

  lemma RemovalListing(rows: map<ShipmentId, Shipment>, before: int, tie: ShipmentId -> int, limit: nat)
    ensures var ids := RemovalIds(rows, before, tie, limit);
      Distinct(ids) && AllIn(ids, rows) && AllRemovable(ids, rows, before)
  {
    var s := RemovalQueue(rows, before, tie);
    TakeIsTake(s, limit);
    forall i | 0 <= i < |Take(s, limit)| ensures Take(s, limit)[i] in s { assert Take(s, limit)[i] in Elements(Take(s, limit)); }
    assert forall i, j | 0 <= i < j < |Take(s, limit)| :: Less(Take(s, limit)[i], Take(s, limit)[j]);
  }

  function FilesOf(files: map<FileId, File>, id: ShipmentId): set<FileId> {
    set f | f in files && files[f].shipment == id
  }

  function WithoutFilesOf(files: map<FileId, File>, gone: set<ShipmentId>): map<FileId, File> {
    map f | f in files && files[f].shipment !in gone :: files[f]
  }

  // ----- What the two queries return -----

  /** The shipments past their deadline, by deadline. */
  ghost function OverdueTimes(rows: map<ShipmentId, Shipment>, now: int): map<ShipmentId, int> {
    map x | x in rows && rows[x].expiresAt < now && rows[x].status !in {Deleted, Expired, Revoked} :: rows[x].expiresAt
  }

  /** The shipments deleted before a time, by their deletion time. */
  ghost function DeletionTimes(rows: map<ShipmentId, Shipment>, before: int): map<ShipmentId, int> {
    map x | x in rows && rows[x].status == Deleted && rows[x].deletedAt.Some? && rows[x].deletedAt.value < before
      :: rows[x].deletedAt.value
  }

  /** `limit` of them, or all, each once, the earliest first. */
  ghost predicate ListsEarliest(ids: seq<ShipmentId>, times: map<ShipmentId, int>, limit: nat) {
    && Distinct(ids) && |ids| == Min(limit, |times|) && AllKeys(ids, times)
    && (forall i, j | 0 <= i < j < |ids| :: times[ids[i]] <= times[ids[j]])
    && (forall i, x | 0 <= i < |ids| && x in times && x !in ids :: times[ids[i]] <= times[x])
  }

  ghost predicate AllKeys(ids: seq<ShipmentId>, times: map<ShipmentId, int>) {
    forall i | 0 <= i < |ids| :: ids[i] in times
  }

  ghost function Queued(times: map<ShipmentId, int>, tie: ShipmentId -> int): set<Key> {
    set x | x in times :: Key(times[x], tie(x), x)
  }

  lemma {:induction false} QueuedCard(times: map<ShipmentId, int>, tie: ShipmentId -> int)
    ensures |Queued(times, tie)| == |times|
    decreases |times|
  {
    if times == map[] {
    } else {
      var x :| x in times;
      QueuedCard(times - {x}, tie);
      assert Queued(times, tie) == Queued(times - {x}, tie) + {Key(times[x], tie(x), x)};
    }
  }

  lemma TakeListsEarliest(times: map<ShipmentId, int>, tie: ShipmentId -> int, limit: nat)
    ensures ListsEarliest(KeyIds(Take(Queued(times, tie), limit)), times, limit)
  {
    var q := Queued(times, tie);
    var ks, ids := Take(q, limit), KeyIds(Take(q, limit));
    TakeIsTake(q, limit);
    QueuedCard(times, tie);
    forall i | 0 <= i < |ids| ensures ids[i] in times && ks[i] == Key(times[ids[i]], tie(ids[i]), ids[i]) {
      assert ks[i] in Elements(ks);
    }
    forall i, j | 0 <= i < j < |ids| ensures ids[i] != ids[j] && times[ids[i]] <= times[ids[j]] {
      assert Less(ks[i], ks[j]);
    }
    forall i, x | 0 <= i < |ids| && x in times && x !in ids ensures times[ids[i]] <= times[x] {
      var k := Key(times[x], tie(x), x);
      assert k in q;
      assert forall j | 0 <= j < |ks| :: ids[j] == ks[j].id && ids[j] in ids;
      assert Less(ks[i], k);
    }
  }

  lemma ExpiryLists(rows: map<ShipmentId, Shipment>, now: int, tie: ShipmentId -> int, limit: nat)
    ensures ListsEarliest(ExpiryIds(rows, now, tie, limit), OverdueTimes(rows, now), limit)
  {
    assert ExpiryQueue(rows, now, tie) == Queued(OverdueTimes(rows, now), tie);
    TakeListsEarliest(OverdueTimes(rows, now), tie, limit);
  }

  lemma RemovalLists(rows: map<ShipmentId, Shipment>, before: int, tie: ShipmentId -> int, limit: nat)
    ensures ListsEarliest(RemovalIds(rows, before, tie, limit), DeletionTimes(rows, before), limit)
  {
    assert RemovalQueue(rows, before, tie) == Queued(DeletionTimes(rows, before), tie);
    TakeListsEarliest(DeletionTimes(rows, before), tie, limit);
  }

  /** The database; call number n on behalf of a shipment succeeds when `answers` says so. */
  class Database {
    var rows: map<ShipmentId, Shipment>
    var files: map<FileId, File>
    var calls: nat
    const answers: (nat, ShipmentId) -> bool

    constructor (rows: map<ShipmentId, Shipment>, files: map<FileId, File>, answers: (nat, ShipmentId) -> bool)
      ensures this.rows == rows && this.files == files && this.answers == answers
    {
      this.rows, this.files, this.answers, calls := rows, files, answers, 0;
    }

    method ListExpiredShipments(now: int, tie: ShipmentId -> int, limit: nat) returns (ids: seq<ShipmentId>)
      ensures ListsEarliest(ids, OverdueTimes(rows, now), limit)
      ensures ids == ExpiryIds(rows, now, tie, limit) && Distinct(ids) && AllOverdue(ids, rows, now)
    {
      ExpiryLists(rows, now, tie, limit);
      ExpiryListing(rows, now, tie, limit);
      ids := ExpiryIds(rows, now, tie, limit);
    }

    method ListDeletedShipmentsForCleanup(before: int, tie: ShipmentId -> int, limit: nat) returns (ids: seq<ShipmentId>)
      ensures ListsEarliest(ids, DeletionTimes(rows, before), limit)
      ensures ids == RemovalIds(rows, before, tie, limit) && Distinct(ids) && AllIn(ids, rows) && AllRemovable(ids, rows, before)
    {
      RemovalLists(rows, before, tie, limit);
      RemovalListing(rows, before, tie, limit);
      ids := RemovalIds(rows, before, tie, limit);
    }

    method MarkShipmentExpired(id: ShipmentId) returns (ok: bool)
      modifies this`rows, this`calls
      ensures ok <==> answers(old(calls), id) && id in old(rows) && old(rows)[id].status !in {Deleted, Expired, Revoked}
      ensures rows == if ok then old(rows)[id := old(rows)[id].(status := Expired)] else old(rows)
    {
      ok := answers(calls, id) && id in rows && rows[id].status !in {Deleted, Expired, Revoked};
      calls := calls + 1;
      if ok { rows := rows[id := rows[id].(status := Expired)]; }
    }

    method GetFilesByShipmentID(id: ShipmentId) returns (ok: bool, found: set<FileId>)
      modifies this`calls
      ensures ok == answers(old(calls), id)
      ensures ok ==> forall f :: f in found <==> f in files && files[f].shipment == id
      ensures ok ==> found == FilesOf(files, id)
    {
      ok, found := answers(calls, id), FilesOf(files, id);
      calls := calls + 1;
    }

    /** One transaction: all rows of the shipment, or none. */
    method DeleteShipmentCascade(id: ShipmentId) returns (ok: bool)
      modifies this
      ensures ok == answers(old(calls), id)
      ensures rows == if ok then old(rows) - {id} else old(rows)
      ensures ok ==> forall f :: f in files <==> f in old(files) && old(files)[f].shipment != id
      ensures forall f | f in files :: f in old(files) && files[f] == old(files)[f]
      ensures files == if ok then WithoutFilesOf(old(files), {id}) else old(files)
    {
      ok := answers(calls, id);
      calls := calls + 1;
      if ok {
        rows := rows - {id};
        files := WithoutFilesOf(files, {id});
      }
    }
  }

  /** Some of the n calls from number c on succeeds. */
  predicate Recovers(answers: (nat, ObjectKey) -> bool, c: nat, n: nat, key: ObjectKey)
    decreases n
  {
    n > 0 && (answers(c, key) || Recovers(answers, c + 1, n - 1, key))
  }

  lemma {:induction false} RecoversMeans(answers: (nat, ObjectKey) -> bool, c: nat, n: nat, key: ObjectKey)
    ensures Recovers(answers, c, n, key) <==> exists i: nat :: c <= i < c + n && answers(i, key)
    decreases n
  {
    if n == 0 {
    } else {
      RecoversMeans(answers, c + 1, n - 1, key);
      if i: nat :| c <= i < c + n && answers(i, key) {
        assert i == c || c + 1 <= i < c + 1 + (n - 1);
      }
    }
  }

  class ObjectStore {
    var present: set<ObjectKey>
    var calls: nat
    const answers: (nat, ObjectKey) -> bool

    constructor (present: set<ObjectKey>, answers: (nat, ObjectKey) -> bool)
      ensures this.present == present && this.answers == answers
    {
      this.present, this.answers, calls := present, answers, 0;
    }

    method DeleteObject(key: ObjectKey) returns (ok: bool)
      modifies this
      ensures ok == answers(old(calls), key) && calls == old(calls) + 1
      ensures present == if ok then old(present) - {key} else old(present)
    {
      ok := answers(calls, key);
      calls := calls + 1;
      if ok { present := present - {key}; }
    }
  }

  // ----- What a pass over some shipments may do -----

  datatype World = World(rows: map<ShipmentId, Shipment>, files: map<FileId, File>, present: set<ObjectKey>)

  ghost function Removed(w: World, w': World): set<ShipmentId> {
    w.rows.Keys - w'.rows.Keys
  }

  ghost predicate RowsShrink(w: World, w': World, tried: set<ShipmentId>) {
    && w'.rows == w.rows - Removed(w, w') && Removed(w, w') <= tried
    && w'.files == WithoutFilesOf(w.files, Removed(w, w'))
  }

  /** A shipment's rows go only after the objects of all its files are gone. */
  ghost predicate ObjectsFirst(w: World, w': World) {
    forall f | f in w.files && w.files[f].shipment in Removed(w, w') :: w.files[f].key !in w'.present
  }

  /** No object goes that is not a file of a shipment that was tried. */
  ghost predicate OnlyTheirObjects(w: World, w': World, tried: set<ShipmentId>) {
    && w'.present <= w.present
    && forall k | k in w.present && k !in w'.present :: exists f :: f in w.files && w.files[f].key == k && w.files[f].shipment in tried
  }

  /** A shipment for which the database answers, and S3 does within the retries for each file. */
  ghost predicate Cleanable(db: (nat, ShipmentId) -> bool, s3: (nat, ObjectKey) -> bool, retries: nat,
                            files: map<FileId, File>, id: ShipmentId) {
    && (forall c: nat :: db(c, id))
    && (forall f, c: nat | f in FilesOf(files, id) :: Recovers(s3, c, retries, files[f].key))
  }

  ghost predicate Pass(w: World, w': World, tried: set<ShipmentId>) {
    RowsShrink(w, w', tried) && ObjectsFirst(w, w') && OnlyTheirObjects(w, w', tried)
  }

  lemma PassesCompose(w: World, w1: World, w2: World, s: set<ShipmentId>, t: set<ShipmentId>)
    requires Pass(w, w1, s) && Pass(w1, w2, t)
    ensures Pass(w, w2, s + t) && Removed(w, w2) == Removed(w, w1) + Removed(w1, w2)
  {
    assert Removed(w, w2) == Removed(w, w1) + Removed(w1, w2);
    RowsCompose(w, w1, w2, s, t);
    ObjectsCompose(w, w1, w2, s, t);
  }

  lemma RowsCompose(w: World, w1: World, w2: World, s: set<ShipmentId>, t: set<ShipmentId>)
    requires RowsShrink(w, w1, s) && RowsShrink(w1, w2, t) && Removed(w, w2) == Removed(w, w1) + Removed(w1, w2)
    ensures RowsShrink(w, w2, s + t)
  {
  }

  lemma ObjectsCompose(w: World, w1: World, w2: World, s: set<ShipmentId>, t: set<ShipmentId>)
    requires Pass(w, w1, s) && Pass(w1, w2, t) && Removed(w, w2) == Removed(w, w1) + Removed(w1, w2)
    ensures ObjectsFirst(w, w2) && OnlyTheirObjects(w, w2, s + t)
  {
    forall f | f in w.files && w.files[f].shipment in Removed(w, w2) ensures w.files[f].key !in w2.present {
      assert w.files[f].shipment in Removed(w, w1) || f in w1.files;
    }
    forall k | k in w.present && k !in w2.present
      ensures exists f :: f in w.files && w.files[f].key == k && w.files[f].shipment in s + t
    {
      if k in w1.present {
        var f :| f in w1.files && w1.files[f].key == k && w1.files[f].shipment in t;
        assert f in w.files;
      }
    }
  }

  /** The files of a shipment that is still there are still there. */
  lemma CleanableStays(db: (nat, ShipmentId) -> bool, s3: (nat, ObjectKey) -> bool, retries: nat,
                       w: World, w': World, tried: set<ShipmentId>, id: ShipmentId)
    requires RowsShrink(w, w', tried) && id !in tried && Cleanable(db, s3, retries, w.files, id)
    ensures Cleanable(db, s3, retries, w'.files, id)
  {
    assert FilesOf(w'.files, id) == FilesOf(w.files, id);
  }

  // ----- A whole run -----

  ghost function Changed(rows: map<ShipmentId, Shipment>, rows': map<ShipmentId, Shipment>): set<ShipmentId> {
    set x | x in rows && x in rows' && rows[x] != rows'[x]
  }

  /** Some of the overdue shipments listed have become expired, and nothing else has changed. */
  ghost predicate Expires(rows: map<ShipmentId, Shipment>, rows': map<ShipmentId, Shipment>, now: int, listed: set<ShipmentId>) {
    && rows.Keys == rows'.Keys && Changed(rows, rows') <= listed
    && forall x | x in Changed(rows, rows') :: Overdue(rows[x], now) && rows'[x] == rows[x].(status := Expired)
  }

  /** Deleted shipments are none of the marking's business. */
  lemma ExpiringLeavesQueue(rows: map<ShipmentId, Shipment>, rows': map<ShipmentId, Shipment>, now: int, listed: set<ShipmentId>,
                            before: int, tie: ShipmentId -> int)
    requires Expires(rows, rows', now, listed)
    ensures RemovalQueue(rows', before, tie) == RemovalQueue(rows, before, tie)
  {
    assert forall x | x in rows :: x in Changed(rows, rows') || rows'[x] == rows[x];
  }

  ghost predicate RemovedUpTo(w: World, w': World, ids: seq<ShipmentId>, i: nat, deleted: nat)
    requires i <= |ids|
  {
    Pass(w, w', Elements(ids[..i])) && deleted == |Removed(w, w')|
  }

  lemma RemovedOne(mid: World, w': World, id: ShipmentId, ok: bool)
    requires RowsShrink(mid, w', {id}) && id in mid.rows && (ok <==> id !in w'.rows)
    ensures Removed(mid, w') == (if ok then {id} else {}) && w'.rows.Keys <= mid.rows.Keys
  {
  }

  lemma RemovedCount(w: World, mid: World, w': World)
    requires w'.rows.Keys <= mid.rows.Keys && Removed(w, w') == Removed(w, mid) + Removed(mid, w')
    ensures |Removed(w, w')| == |Removed(w, mid)| + |Removed(mid, w')|
  {
    DisjointCard(Removed(w, mid), Removed(mid, w'));
  }

  lemma UpToNext(ids: seq<ShipmentId>, i: nat)
    requires i < |ids|
    ensures Elements(ids[..i + 1]) == Elements(ids[..i]) + {ids[i]}
  {
    assert ids[..i + 1] == ids[..i] + [ids[i]];
  }

  lemma OneMoreRemoved(w: World, mid: World, w': World, ids: seq<ShipmentId>, i: nat, deleted: nat, ok: bool)
    requires i < |ids| && ids[i] in mid.rows
    requires RemovedUpTo(w, mid, ids, i, deleted) && Pass(mid, w', {ids[i]}) && (ok <==> ids[i] !in w'.rows)
    ensures RemovedUpTo(w, w', ids, i + 1, if ok then deleted + 1 else deleted)
    ensures w'.rows.Keys <= mid.rows.Keys
  {
    var s := Elements(ids[..i]);
    PassesCompose(w, mid, w', s, {ids[i]});
    UpToNext(ids, i);
    RemovedOne(mid, w', ids[i], ok);
    RemovedCount(w, mid, w');
  }

  /** The settings of one run, and what the database and S3 answer in it. */
  datatype Run = Run(
    limit: nat, now: int, grace: int, retries: nat, expiryTie: ShipmentId -> int, removalTie: ShipmentId -> int,
    expiryListed: bool, removalListed: bool, db: (nat, ShipmentId) -> bool, s3: (nat, ObjectKey) -> bool)

  /** Every cleanable shipment among the first i is gone. */
  ghost predicate CleanedUpTo(w: World, rows: map<ShipmentId, Shipment>, ids: seq<ShipmentId>, i: nat, r: Run)
    requires i <= |ids|
  {
    forall j | 0 <= j < i && Cleanable(r.db, r.s3, r.retries, w.files, ids[j]) :: ids[j] !in rows
  }

  lemma OneMoreCleaned(w: World, mid: World, rows: map<ShipmentId, Shipment>, ids: seq<ShipmentId>, i: nat, r: Run)
    requires i < |ids| && CleanedUpTo(w, mid.rows, ids, i, r) && rows.Keys <= mid.rows.Keys
    requires Cleanable(r.db, r.s3, r.retries, w.files, ids[i]) ==> ids[i] !in rows
    ensures CleanedUpTo(w, rows, ids, i + 1, r)
  {
  }

  /** The next shipment of the list is still there, and as cleanable as at the start. */
  lemma NextIsStillThere(w: World, mid: World, ids: seq<ShipmentId>, i: nat, deleted: nat, r: Run)
    requires Distinct(ids) && i < |ids| && ids[i] in w.rows && RemovedUpTo(w, mid, ids, i, deleted)
    ensures ids[i] in mid.rows
    ensures Cleanable(r.db, r.s3, r.retries, w.files, ids[i]) ==> Cleanable(r.db, r.s3, r.retries, mid.files, ids[i])
  {
    assert ids[i] !in Elements(ids[..i]);
    if Cleanable(r.db, r.s3, r.retries, w.files, ids[i]) {
      CleanableStays(r.db, r.s3, r.retries, w, mid, Elements(ids[..i]), ids[i]);
    }
  }

  ghost predicate DoneUpTo(w: World, w': World, ids: seq<ShipmentId>, i: nat, r: Run, deleted: nat)
    requires i <= |ids|
  {
    RemovedUpTo(w, w', ids, i, deleted) && CleanedUpTo(w, w'.rows, ids, i, r)
  }

  lemma NextIsThere(w: World, mid: World, ids: seq<ShipmentId>, i: nat, r: Run, deleted: nat)
    requires Distinct(ids) && AllIn(ids, w.rows) && i < |ids| && DoneUpTo(w, mid, ids, i, r, deleted)
    ensures ids[i] in mid.rows
  {
    NextIsStillThere(w, mid, ids, i, deleted, r);
  }

  lemma OneMoreDone(w: World, mid: World, w': World, ids: seq<ShipmentId>, i: nat, r: Run, deleted: nat, ok: bool)
    requires Distinct(ids) && AllIn(ids, w.rows) && i < |ids| && DoneUpTo(w, mid, ids, i, r, deleted)
    requires Pass(mid, w', {ids[i]}) && (ok <==> ids[i] !in w'.rows)
    requires Cleanable(r.db, r.s3, r.retries, mid.files, ids[i]) ==> ok
    ensures DoneUpTo(w, w', ids, i + 1, r, if ok then deleted + 1 else deleted)
  {
    NextIsStillThere(w, mid, ids, i, deleted, r);
    OneMoreRemoved(w, mid, w', ids, i, deleted, ok);
    OneMoreCleaned(w, mid, w'.rows, ids, i, r);
  }

  lemma NoneDone(w: World, ids: seq<ShipmentId>, r: Run)
    ensures DoneUpTo(w, w, ids, 0, r, 0)
  {
    assert w.rows - {} == w.rows;
    assert Removed(w, w) == {};
  }

  datatype RunResult = RunResult(expiredMarked: nat, deleted: nat)

  /** The shipments the two queries of a run return. */
  function Expiring(w: World, r: Run): seq<ShipmentId> {
    if r.expiryListed then ExpiryIds(w.rows, r.now, r.expiryTie, r.limit) else []
  }

  function Removing(w: World, r: Run): seq<ShipmentId> {
    if r.expiryListed && r.removalListed then RemovalIds(w.rows, r.now - r.grace, r.removalTie, r.limit) else []
  }

  /** What a run does with the two lists: marks among the first, removes among the second. */
  ghost predicate RunOf(w: World, w': World, r: Run, expiring: seq<ShipmentId>, removing: seq<ShipmentId>, result: RunResult) {
    && Removed(w, w') <= Elements(removing) && |Removed(w, w')| == result.deleted
    && Expires(w.rows - Removed(w, w'), w'.rows, r.now, Elements(expiring))
    && |Changed(w.rows, w'.rows)| == result.expiredMarked
    && w'.files == WithoutFilesOf(w.files, Removed(w, w'))
    && ObjectsFirst(w, w') && OnlyTheirObjects(w, w', Elements(removing))
    && CleanedUpTo(w, w'.rows, removing, |removing|, r)
  }

  /** Each of the first n listed shipments for which the database answers is expired. */
  ghost predicate MarksAnswered(ids: seq<ShipmentId>, n: nat, answers: (nat, ShipmentId) -> bool, rows: map<ShipmentId, Shipment>)
    requires n <= |ids|
  {
    forall i | 0 <= i < n && (forall c: nat :: answers(c, ids[i])) :: ids[i] in rows && rows[ids[i]].status == Expired
  }

  lemma OneMoreMarked(rows: map<ShipmentId, Shipment>, mid: map<ShipmentId, Shipment>, rows': map<ShipmentId, Shipment>,
                      now: int, ids: seq<ShipmentId>, i: nat, ok: bool)
    requires Distinct(ids) && AllOverdue(ids, rows, now) && i < |ids| && Expires(rows, mid, now, Elements(ids[..i]))
    requires rows' == if ok then mid[ids[i] := mid[ids[i]].(status := Expired)] else mid
    ensures Expires(rows, rows', now, Elements(ids[..i + 1]))
    ensures |Changed(rows, rows')| == |Changed(rows, mid)| + if ok then 1 else 0
  {
    UpToNext(ids, i);
    assert ids[i] !in Elements(ids[..i]);
    assert Overdue(rows[ids[i]], now);
    assert Changed(rows, rows') == if ok then Changed(rows, mid) + {ids[i]} else Changed(rows, mid);
  }

  /** A listed shipment is still markable when its turn comes. */
  lemma OneMoreAnswered(rows: map<ShipmentId, Shipment>, mid: map<ShipmentId, Shipment>, rows': map<ShipmentId, Shipment>,
                        now: int, ids: seq<ShipmentId>, i: nat, answers: (nat, ShipmentId) -> bool, c: nat, ok: bool)
    requires Distinct(ids) && AllOverdue(ids, rows, now) && i < |ids| && Expires(rows, mid, now, Elements(ids[..i]))
    requires MarksAnswered(ids, i, answers, mid)
    requires rows' == if ok then mid[ids[i] := mid[ids[i]].(status := Expired)] else mid
    requires ok <==> answers(c, ids[i]) && mid[ids[i]].status !in {Deleted, Expired, Revoked}
    ensures MarksAnswered(ids, i + 1, answers, rows')
  {
    assert ids[i] !in Elements(ids[..i]);
    assert mid[ids[i]] == rows[ids[i]] && Overdue(rows[ids[i]], now);
  }

  ghost predicate MarkingOf(w: World, mid: World, now: int, expiring: seq<ShipmentId>, marked: nat) {
    && mid.files == w.files && mid.present == w.present && marked == |Changed(w.rows, mid.rows)|
    && Expires(w.rows, mid.rows, now, Elements(expiring))
  }

  ghost predicate RemovalOf(mid: World, w': World, ids: seq<ShipmentId>, r: Run, deleted: nat) {
    DoneUpTo(mid, w', ids, |ids|, r, deleted)
  }

  lemma NothingRemoved(w: World, r: Run)
    ensures RemovalOf(w, w, [], r, 0)
  {
    NoneDone(w, [], r);
  }

  /** What the second phase removes was deleted, not expired. */
  lemma MarksStay(mid: World, w': World, expiring: seq<ShipmentId>, removing: seq<ShipmentId>, before: int,
                  r: Run, deleted: nat, answers: (nat, ShipmentId) -> bool)
    requires MarksAnswered(expiring, |expiring|, answers, mid.rows)
    requires RemovalOf(mid, w', removing, r, deleted) && AllRemovable(removing, mid.rows, before)
    ensures MarksAnswered(expiring, |expiring|, answers, w'.rows)
  {
    assert removing[..|removing|] == removing;
    forall x | x in Removed(mid, w') ensures mid.rows[x].status == Deleted {
      var i :| 0 <= i < |removing| && removing[i] == x;
    }
  }

  lemma RemovingIgnoresMarking(w: World, mid: World, r: Run, expiring: seq<ShipmentId>, marked: nat)
    requires MarkingOf(w, mid, r.now, expiring, marked)
    ensures Removing(mid, r) == Removing(w, r)
  {
    ExpiringLeavesQueue(w.rows, mid.rows, r.now, Elements(expiring), r.now - r.grace, r.removalTie);
  }

  lemma ExpiresMinus(rows: map<ShipmentId, Shipment>, mid: map<ShipmentId, Shipment>, now: int, listed: set<ShipmentId>,
                     gone: set<ShipmentId>)
    requires Expires(rows, mid, now, listed) && gone !! Changed(rows, mid)
    ensures Changed(rows, mid - gone) == Changed(rows, mid)
    ensures Expires(rows - gone, mid - gone, now, listed)
  {
    assert Changed(rows - gone, mid - gone) == Changed(rows, mid);
  }

  /** What the second phase lists was deleted, and so never marked by the first. */
  lemma ListedNotMarked(w: World, mid: World, now: int, expiring: seq<ShipmentId>, marked: nat, removing: seq<ShipmentId>, before: int)
    requires MarkingOf(w, mid, now, expiring, marked) && AllRemovable(removing, w.rows, before)
    ensures Elements(removing) !! Changed(w.rows, mid.rows)
  {
  }

  lemma MarkedStay(w: World, mid: World, w': World, now: int, expiring: seq<ShipmentId>, marked: nat,
                   removing: seq<ShipmentId>, before: int)
    requires MarkingOf(w, mid, now, expiring, marked) && AllRemovable(removing, w.rows, before)
    requires RowsShrink(mid, w', Elements(removing))
    ensures Removed(w, w') == Removed(mid, w') && Changed(w.rows, w'.rows) == Changed(w.rows, mid.rows)
    ensures Expires(w.rows - Removed(w, w'), w'.rows, now, Elements(expiring))
  {
    ListedNotMarked(w, mid, now, expiring, marked, removing, before);
    assert Removed(w, w') == Removed(mid, w');
    ExpiresMinus(w.rows, mid.rows, now, Elements(expiring), Removed(mid, w'));
  }

  lemma RunSummary(w: World, mid: World, w': World, r: Run, expiring: seq<ShipmentId>, marked: nat,
                   removing: seq<ShipmentId>, before: int, deleted: nat)
    requires MarkingOf(w, mid, r.now, expiring, marked) && RemovalOf(mid, w', removing, r, deleted)
    requires AllRemovable(removing, w.rows, before)
    ensures RunOf(w, w', r, expiring, removing, RunResult(marked, deleted))
  {
    MarkedStay(w, mid, w', r.now, expiring, marked, removing, before);
  }

  lemma NothingMarked(w: World, now: int, answers: (nat, ShipmentId) -> bool)
    ensures MarkingOf(w, w, now, [], 0) && MarksAnswered([], 0, answers, w.rows)
  {
    assert Changed(w.rows, w.rows) == {};
  }

  lemma RemovingListing(w: World, r: Run)
    ensures AllRemovable(Removing(w, r), w.rows, r.now - r.grace)
  {
    RemovalListing(w.rows, r.now - r.grace, r.removalTie, r.limit);
  }

  lemma RunLists(w: World, r: Run)
    ensures r.expiryListed ==> ListsEarliest(Expiring(w, r), OverdueTimes(w.rows, r.now), r.limit)
    ensures r.expiryListed && r.removalListed ==> ListsEarliest(Removing(w, r), DeletionTimes(w.rows, r.now - r.grace), r.limit)
  {
    hide ListsEarliest, OverdueTimes, DeletionTimes;
    ExpiryLists(w.rows, r.now, r.expiryTie, r.limit);
    RemovalLists(w.rows, r.now - r.grace, r.removalTie, r.limit);
  }

  class CleanupWorker {
    const store: Database
    const objectStore: ObjectStore
    var batchSize: int
    var deletionGrace: int
    var s3DeleteMaxRetries: int

    constructor (store: Database, objectStore: ObjectStore, batchSize: int, deletionGrace: int, retries: int)
      ensures this.store == store && this.objectStore == objectStore
      ensures this.batchSize == batchSize && this.deletionGrace == deletionGrace && s3DeleteMaxRetries == retries
    {
      this.store, this.objectStore := store, objectStore;
      this.batchSize, this.deletionGrace, s3DeleteMaxRetries := batchSize, deletionGrace, retries;
    }

    ghost function Here(): World
      reads store, objectStore
    {
      World(store.rows, store.files, objectStore.present)
    }

    /**
     * Deleted exactly when one of the first s3DeleteMaxRetries calls succeeds. With no attempt allowed
     * nothing is deleted and no error is reported; a run fills in the default first.
     */
    method DeleteObjectWithRetry(key: ObjectKey) returns (ok: bool)
      modifies objectStore
      ensures s3DeleteMaxRetries > 0 ==>
        (ok <==> exists n :: old(objectStore.calls) <= n < old(objectStore.calls) + s3DeleteMaxRetries && objectStore.answers(n, key))
      ensures s3DeleteMaxRetries > 0 ==> ok == Recovers(objectStore.answers, old(objectStore.calls), s3DeleteMaxRetries, key)
      ensures s3DeleteMaxRetries <= 0 ==> ok
      ensures objectStore.present == if ok && s3DeleteMaxRetries > 0 then old(objectStore.present) - {key} else old(objectStore.present)
    {
      RecoversMeans(objectStore.answers, objectStore.calls, Max(0, s3DeleteMaxRetries), key);
      var lastErr := false;
      var i := 0;
      while i < s3DeleteMaxRetries
        invariant 0 <= i <= Max(0, s3DeleteMaxRetries)
        invariant objectStore.calls == old(objectStore.calls) + i && objectStore.present == old(objectStore.present)
        invariant lastErr <==> i > 0
        invariant Recovers(objectStore.answers, old(objectStore.calls), Max(0, s3DeleteMaxRetries), key)
          == Recovers(objectStore.answers, objectStore.calls, Max(0, s3DeleteMaxRetries - i), key)
      {
        ok := objectStore.DeleteObject(key);
        if ok { return true; }
        lastErr := true;
        i := i + 1;
      }
      return !lastErr;
    }

    method CleanupShipment(id: ShipmentId) returns (ok: bool)
      requires id in store.rows && s3DeleteMaxRetries > 0
      modifies store, objectStore
      ensures Pass(old(Here()), Here(), {id})
      ensures ok <==> id !in store.rows
      ensures Cleanable(store.answers, objectStore.answers, s3DeleteMaxRetries, old(store.files), id) ==> ok
    {
      ghost var w := Here();
      var found: set<FileId>;
      ok, found := store.GetFilesByShipmentID(id);
      if !ok { return false; }
      var todo := found;
      while todo != {}
        invariant todo <= found == FilesOf(w.files, id) && store.rows == w.rows && store.files == w.files
        invariant OnlyTheirObjects(w, Here(), {id})
        invariant forall f | f in found && f !in todo :: w.files[f].key !in objectStore.present
        decreases |todo|
      {
        var f :| f in todo;
        ok := DeleteObjectWithRetry(store.files[f].key);
        if !ok { return false; }
        todo := todo - {f};
      }
      ok := store.DeleteShipmentCascade(id);
      assert ok ==> Removed(w, Here()) == {id};
    }

    method MarkExpired(now: int, ids: seq<ShipmentId>) returns (marked: nat)
      requires Distinct(ids) && AllOverdue(ids, store.rows, now)
      modifies store`rows, store`calls
      ensures Expires(old(store.rows), store.rows, now, Elements(ids))
      ensures marked == |Changed(old(store.rows), store.rows)|
      ensures MarksAnswered(ids, |ids|, store.answers, store.rows)
    {
      marked := 0;
      for i := 0 to |ids|
        invariant Expires(old(store.rows), store.rows, now, Elements(ids[..i]))
        invariant marked == |Changed(old(store.rows), store.rows)|
        invariant MarksAnswered(ids, i, store.answers, store.rows)
      {
        ghost var mid, c := store.rows, store.calls;
        var ok := store.MarkShipmentExpired(ids[i]);
        OneMoreMarked(old(store.rows), mid, store.rows, now, ids, i, ok);
        OneMoreAnswered(old(store.rows), mid, store.rows, now, ids, i, store.answers, c, ok);
        if ok { marked := marked + 1; }
      }
      assert ids[..|ids|] == ids;
    }

    method RemoveDeleted(ids: seq<ShipmentId>, ghost r: Run) returns (deleted: nat)
      requires Distinct(ids) && AllIn(ids, store.rows) && s3DeleteMaxRetries > 0
      requires r.retries == s3DeleteMaxRetries && r.db == store.answers && r.s3 == objectStore.answers
      modifies store, objectStore
      ensures RemovalOf(old(Here()), Here(), ids, r, deleted)
    {
      ghost var w := Here();
      deleted := 0;
      NoneDone(w, ids, r);
      for i := 0 to |ids|
        invariant DoneUpTo(w, Here(), ids, i, r, deleted)
      {
        ghost var mid := Here();
        NextIsThere(w, mid, ids, i, r, deleted);
        var ok := CleanupShipment(ids[i]);
        OneMoreDone(w, mid, Here(), ids, i, r, deleted, ok);
        if ok { deleted := deleted + 1; }
      }
    }

    method FillDefaults()
      modifies this
      ensures batchSize == if old(batchSize) > 0 then old(batchSize) else 100
      ensures deletionGrace == if old(deletionGrace) > 0 then old(deletionGrace) else 24 * 3600 * 1_000_000_000
      ensures s3DeleteMaxRetries == if old(s3DeleteMaxRetries) > 0 then old(s3DeleteMaxRetries) else 3
    {
      if batchSize <= 0 { batchSize := DEFAULT_BATCH; }
      if deletionGrace <= 0 { deletionGrace := DEFAULT_GRACE; }
      if s3DeleteMaxRetries <= 0 { s3DeleteMaxRetries := DEFAULT_RETRIES; }
    }

    /** The settings a run uses, defaults filled in. */
    ghost function Settings(now: int, expiryTie: ShipmentId -> int, removalTie: ShipmentId -> int,
                            expiryListed: bool, removalListed: bool): Run
      reads this, store, objectStore
    {
      Run(if batchSize <= 0 then 100 else batchSize, now,
          if deletionGrace <= 0 then 24 * 3600 * 1_000_000_000 else deletionGrace,
          if s3DeleteMaxRetries <= 0 then 3 else s3DeleteMaxRetries,
          expiryTie, removalTie, expiryListed, removalListed, store.answers, objectStore.answers)
    }

    method RunOnce(now: int, expiryTie: ShipmentId -> int, removalTie: ShipmentId -> int, expiryListed: bool, removalListed: bool)
      returns (ok: bool, result: RunResult, ghost expiring: seq<ShipmentId>, ghost removing: seq<ShipmentId>)
      modifies this, store, objectStore
      ensures ok <==> expiryListed && removalListed
      ensures batchSize == if old(batchSize) > 0 then old(batchSize) else 100
      ensures deletionGrace == if old(deletionGrace) > 0 then old(deletionGrace) else 24 * 3600 * 1_000_000_000
      ensures expiryListed ==> ListsEarliest(expiring, OverdueTimes(old(store.rows), now), batchSize)
      ensures ok ==> ListsEarliest(removing, DeletionTimes(old(store.rows), now - deletionGrace), batchSize)
      ensures (!expiryListed ==> expiring == []) && (!ok ==> removing == [])
      ensures expiring == Expiring(old(Here()), old(Settings(now, expiryTie, removalTie, expiryListed, removalListed)))
      ensures removing == Removing(old(Here()), old(Settings(now, expiryTie, removalTie, expiryListed, removalListed)))
      ensures RunOf(old(Here()), Here(), old(Settings(now, expiryTie, removalTie, expiryListed, removalListed)),
                    expiring, removing, result)
      ensures MarksAnswered(expiring, |expiring|, store.answers, store.rows)
    {
      hide ListsEarliest, RunOf, MarksAnswered;
      ghost var w, r := Here(), Settings(now, expiryTie, removalTie, expiryListed, removalListed);
      FillDefaults();
      RunLists(w, r);
      ok, result, expiring, removing := RunPhases(now, expiryTie, removalTie, expiryListed, removalListed, r);
    }

    method RunPhases(now: int, expiryTie: ShipmentId -> int, removalTie: ShipmentId -> int, expiryListed: bool, removalListed: bool,
                     ghost r: Run)
      returns (ok: bool, result: RunResult, ghost expiring: seq<ShipmentId>, ghost removing: seq<ShipmentId>)
      requires batchSize > 0 && s3DeleteMaxRetries > 0
      requires r == Run(batchSize, now, deletionGrace, s3DeleteMaxRetries, expiryTie, removalTie, expiryListed, removalListed,
                        store.answers, objectStore.answers)
      modifies store, objectStore
      ensures ok <==> expiryListed && removalListed
      ensures expiring == Expiring(old(Here()), r) && removing == Removing(old(Here()), r)
      ensures RunOf(old(Here()), Here(), r, expiring, removing, result)
      ensures MarksAnswered(expiring, |expiring|, store.answers, store.rows)
    {
      hide RunOf, MarksAnswered, AllRemovable, RemovalOf;
      ghost var w := Here();
      RemovingListing(w, r);
      var marked, deleted := 0, 0;
      ghost var mid := w;
      if expiryListed {
        marked, expiring := MarkPhase(now, expiryTie, r);
        mid := Here();
        RemovingIgnoresMarking(w, mid, r, expiring, marked);
      } else {
        expiring := [];
        NothingMarked(w, now, store.answers);
      }
      ok := expiryListed && removalListed;
      if ok {
        var deletedTargets := ListForRemoval(now - deletionGrace, removalTie, r);
        removing := deletedTargets;
        deleted := RemoveDeleted(deletedTargets, r);
        MarksStay(mid, Here(), expiring, removing, now - deletionGrace, r, deleted, store.answers);
      } else {
        removing := [];
        NothingRemoved(mid, r);
      }
      result := RunResult(marked, deleted);
      RunSummary(w, mid, Here(), r, expiring, marked, removing, r.now - r.grace, deleted);
    }

    method MarkPhase(now: int, tie: ShipmentId -> int, ghost r: Run) returns (marked: nat, ghost expiring: seq<ShipmentId>)
      requires batchSize > 0 && r.limit == batchSize && r.now == now && r.expiryTie == tie && r.expiryListed
      modifies store`rows, store`calls
      ensures expiring == Expiring(old(Here()), r)
      ensures MarkingOf(old(Here()), Here(), now, expiring, marked)
      ensures MarksAnswered(expiring, |expiring|, store.answers, store.rows)
    {
      var expired := store.ListExpiredShipments(now, tie, batchSize);
      expiring := expired;
      marked := MarkExpired(now, expired);
    }

    /** The second query, with what its answer means for this run. */
    method ListForRemoval(before: int, tie: ShipmentId -> int, ghost r: Run) returns (ids: seq<ShipmentId>)
      requires batchSize > 0 && r.limit == batchSize && before == r.now - r.grace && r.removalTie == tie
      requires r.expiryListed && r.removalListed
      ensures ids == Removing(Here(), r) && Distinct(ids) && AllIn(ids, store.rows) && AllRemovable(ids, store.rows, before)
    {
      ids := store.ListDeletedShipmentsForCleanup(before, tie, batchSize);
    }
  }

  // ----- Draining -----

  /** The shipments whose grace period had ended by the threshold `t`. */
  ghost function Backlog(rows: map<ShipmentId, Shipment>, t: int): set<ShipmentId> {
    set x | x in rows && Removable(rows[x], t)
  }

  ghost function KeysFor(rows: map<ShipmentId, Shipment>, tie: ShipmentId -> int, ids: set<ShipmentId>): set<Key>
    requires forall x | x in ids :: x in rows && rows[x].deletedAt.Some?
  {
    set x | x in ids :: Key(rows[x].deletedAt.value, tie(x), x)
  }

  lemma {:induction false} KeysCard(rows: map<ShipmentId, Shipment>, tie: ShipmentId -> int, ids: set<ShipmentId>)
    requires forall x | x in ids :: x in rows && rows[x].deletedAt.Some?
    ensures |KeysFor(rows, tie, ids)| == |ids|
    decreases |ids|
  {
    if ids == {} {
    } else {
      var x :| x in ids;
      KeysCard(rows, tie, ids - {x});
      assert KeysFor(rows, tie, ids) == KeysFor(rows, tie, ids - {x}) + {Key(rows[x].deletedAt.value, tie(x), x)};
    }
  }

  lemma UpToIsBacklog(rows: map<ShipmentId, Shipment>, tie: ShipmentId -> int, before: int, t: int)
    requires t <= before
    ensures UpTo(RemovalQueue(rows, before, tie), t - 1) == KeysFor(rows, tie, Backlog(rows, t))
  {
  }

  ghost function StuckKeys(rows: map<ShipmentId, Shipment>, tie: ShipmentId -> int, t: int, stuck: set<ShipmentId>): set<Key> {
    KeysFor(rows, tie, Backlog(rows, t) * stuck)
  }

  lemma MinusStuck(rows: map<ShipmentId, Shipment>, tie: ShipmentId -> int, t: int, stuck: set<ShipmentId>, listed: seq<Key>)
    ensures KeysFor(rows, tie, Backlog(rows, t)) - StuckKeys(rows, tie, t, stuck) == KeysFor(rows, tie, Backlog(rows, t) - stuck)
    ensures forall x | x in Backlog(rows, t) - stuck - Elements(KeyIds(listed)) :: Key(rows[x].deletedAt.value, tie(x), x) !in listed
  {
    forall x | x in Backlog(rows, t) - stuck - Elements(KeyIds(listed)) ensures Key(rows[x].deletedAt.value, tie(x), x) !in listed {
      assert forall i | 0 <= i < |listed| :: KeyIds(listed)[i] == listed[i].id && listed[i].id in Elements(KeyIds(listed));
    }
  }

  /** Counted in keys: the good shipments that were due, the stuck ones, and what a list leaves of the good ones. */
  lemma KeysCount(rows: map<ShipmentId, Shipment>, tie: ShipmentId -> int, t: int, stuck: set<ShipmentId>, listed: seq<Key>)
    ensures var due, sk := KeysFor(rows, tie, Backlog(rows, t)), StuckKeys(rows, tie, t, stuck);
      && |sk| <= |stuck| && |due - sk| == |Backlog(rows, t) - stuck|
      && |Backlog(rows, t) - stuck - Elements(KeyIds(listed))| <= |due - sk - Elements(listed)|
  {
    var due, sk := KeysFor(rows, tie, Backlog(rows, t)), StuckKeys(rows, tie, t, stuck);
    var left := Backlog(rows, t) - stuck - Elements(KeyIds(listed));
    MinusStuck(rows, tie, t, stuck, listed);
    KeysCard(rows, tie, Backlog(rows, t) * stuck);
    SubsetCard(Backlog(rows, t) * stuck, stuck);
    KeysCard(rows, tie, Backlog(rows, t) - stuck);
    KeysCard(rows, tie, left);
    SubsetCard(KeysFor(rows, tie, left), due - sk - Elements(listed));
  }

  /** A batch retires limit - |stuck| of the good shipments that were due, or all of them. */
  lemma BatchRetires(rows: map<ShipmentId, Shipment>, tie: ShipmentId -> int, before: int, t: int, limit: nat, stuck: set<ShipmentId>)
    requires t <= before && |stuck| <= limit
    ensures |Backlog(rows, t) - stuck - Elements(RemovalIds(rows, before, tie, limit))|
      <= Max(0, |Backlog(rows, t) - stuck| - (limit - |stuck|))
  {
    var q := RemovalQueue(rows, before, tie);
    UpToIsBacklog(rows, tie, before, t);
    KeysCount(rows, tie, t, stuck, Take(q, limit));
    TakeDrainsAroundStuck(q, limit, StuckKeys(rows, tie, t, stuck), t - 1);
  }

  lemma ExpiringLeavesBacklog(rows: map<ShipmentId, Shipment>, rows': map<ShipmentId, Shipment>, now: int, listed: set<ShipmentId>, t: int)
    requires Expires(rows, rows', now, listed)
    ensures Backlog(rows', t) == Backlog(rows, t)
  {
    assert forall x | x in rows :: x in Changed(rows, rows') || rows'[x] == rows[x];
  }

  lemma MarkingAddsNoBacklog(w: World, w': World, r: Run, expiring: seq<ShipmentId>, removing: seq<ShipmentId>, result: RunResult, t: int)
    requires RunOf(w, w', r, expiring, removing, result)
    ensures Backlog(w'.rows, t) == Backlog(w.rows, t) - Removed(w, w')
  {
    ExpiringLeavesBacklog(w.rows - Removed(w, w'), w'.rows, r.now, Elements(expiring), t);
  }

  lemma ListedAreGone(w: World, rows: map<ShipmentId, Shipment>, ids: seq<ShipmentId>, r: Run, stuck: set<ShipmentId>)
    requires CleanedUpTo(w, rows, ids, |ids|, r)
    requires forall id | id in ids && id !in stuck :: Cleanable(r.db, r.s3, r.retries, w.files, id)
    ensures forall id | id in Elements(ids) && id !in stuck :: id !in rows
  {
    forall id | id in Elements(ids) && id !in stuck ensures id !in rows {
      var j :| 0 <= j < |ids| && ids[j] == id;
      assert ids[j] in ids;
    }
  }

  ghost function Left(w: World, t: int, stuck: set<ShipmentId>): nat {
    |Backlog(w.rows, t) - stuck|
  }

  /** What a run takes off the backlog: the listed shipments that are not stuck, and it adds none. */
  ghost predicate LeavesOnly(w: World, w': World, listed: set<ShipmentId>, t: int, stuck: set<ShipmentId>) {
    && Backlog(w'.rows, t) <= Backlog(w.rows, t)
    && forall id | id in listed && id !in stuck :: id !in w'.rows
  }

  lemma RunRetires(w: World, w': World, before: int, tie: ShipmentId -> int, limit: nat, t: int, stuck: set<ShipmentId>,
                   listed: seq<ShipmentId>)
    requires before >= t && |stuck| <= limit && listed == RemovalIds(w.rows, before, tie, limit)
    requires LeavesOnly(w, w', Elements(listed), t, stuck)
    ensures Retires(Left(w, t, stuck), Left(w', t, stuck), limit - |stuck|)
  {
    BatchRetires(w.rows, tie, before, t, limit, stuck);
    LeftShrinks(w, w', t, stuck, Elements(listed));
  }

  predicate Retires(before: nat, after: nat, d: nat) {
    after <= Max(0, before - d)
  }

  lemma LeftShrinks(w: World, w': World, t: int, stuck: set<ShipmentId>, listed: set<ShipmentId>)
    requires Backlog(w'.rows, t) <= Backlog(w.rows, t)
    requires forall id | id in listed && id !in stuck :: id !in w'.rows
    ensures Left(w', t, stuck) <= |Backlog(w.rows, t) - stuck - listed|
  {
    SubsetCard(Backlog(w'.rows, t) - stuck, Backlog(w.rows, t) - stuck - listed);
  }

  /** One run of the worker with a threshold of at least `t`, or anything that deletes nothing before `t`. */
  datatype Step = Running(before: int, tie: ShipmentId -> int, listed: seq<ShipmentId>) | Other

  ghost predicate StepOf(w: World, w': World, step: Step, limit: nat, t: int, stuck: set<ShipmentId>) {
    match step
    case Running(before, tie, listed) =>
      before >= t && listed == RemovalIds(w.rows, before, tie, limit) && LeavesOnly(w, w', Elements(listed), t, stuck)
    case Other => Backlog(w'.rows, t) <= Backlog(w.rows, t)
  }

  /**
   * Every run of the worker (its list is RemovalIds) is such a step, if only stuck shipments lack an
   * answer from the database or from S3.
   */
  lemma RunLeavesOnly(w: World, w': World, r: Run, expiring: seq<ShipmentId>, removing: seq<ShipmentId>, result: RunResult,
                      t: int, stuck: set<ShipmentId>)
    requires RunOf(w, w', r, expiring, removing, result)
    requires forall id | id in removing && id !in stuck :: Cleanable(r.db, r.s3, r.retries, w.files, id)
    ensures LeavesOnly(w, w', Elements(removing), t, stuck)
  {
    ListedAreGone(w, w'.rows, removing, r, stuck);
    MarkingAddsNoBacklog(w, w', r, expiring, removing, result, t);
  }

  function Share(step: Step, d: nat): nat {
    if step.Running? then d else 0
  }

  lemma StepRetires(w: World, w': World, step: Step, limit: nat, t: int, stuck: set<ShipmentId>)
    requires StepOf(w, w', step, limit, t, stuck) && |stuck| <= limit
    ensures Retires(Left(w, t, stuck), Left(w', t, stuck), Share(step, limit - |stuck|))
  {
    if step.Running? {
      RunRetires(w, w', step.before, step.tie, limit, t, stuck, step.listed);
    } else {
      SubsetCard(Backlog(w'.rows, t) - stuck, Backlog(w.rows, t) - stuck);
    }
  }

  ghost predicate StepAt(ws: seq<World>, steps: seq<Step>, i: nat, limit: nat, t: int, stuck: set<ShipmentId>) {
    i + 1 < |ws| && i < |steps| && StepOf(ws[i], ws[i + 1], steps[i], limit, t, stuck)
  }

  ghost predicate IsTrace(ws: seq<World>, steps: seq<Step>, limit: nat, t: int, stuck: set<ShipmentId>) {
    && |ws| == |steps| + 1
    && forall i | 0 <= i < |steps| :: StepAt(ws, steps, i, limit, t, stuck)
  }

  lemma StepAtRetires(ws: seq<World>, steps: seq<Step>, i: nat, limit: nat, t: int, stuck: set<ShipmentId>)
    requires StepAt(ws, steps, i, limit, t, stuck) && |stuck| <= limit
    ensures Retires(Left(ws[i], t, stuck), Left(ws[i + 1], t, stuck), Share(steps[i], limit - |stuck|))
  {
    StepRetires(ws[i], ws[i + 1], steps[i], limit, t, stuck);
  }

  /** What is left before each step and at the end. */
  lemma TraceRetires(ws: seq<World>, steps: seq<Step>, limit: nat, t: int, stuck: set<ShipmentId>) returns (left: seq<nat>)
    requires IsTrace(ws, steps, limit, t, stuck) && |stuck| <= limit
    ensures Retiring(left, steps, limit - |stuck|)
    ensures left[0] == Left(ws[0], t, stuck) && left[|steps|] == Left(ws[|steps|], t, stuck)
  {
    left := seq(|ws|, i requires 0 <= i < |ws| => Left(ws[i], t, stuck));
    forall i | 0 <= i < |steps| ensures Retires(Left(ws[i], t, stuck), Left(ws[i + 1], t, stuck), Share(steps[i], limit - |stuck|)) {
      StepAtRetires(ws, steps, i, limit, t, stuck);
    }
  }

  function Runs(steps: seq<Step>): nat {
    if steps == [] then 0 else Runs(steps[..|steps| - 1]) + (if steps[|steps| - 1].Running? then 1 else 0)
  }

  /** Each run of the worker takes its share of what is left, and nothing adds to it. */
  ghost predicate Retiring(left: seq<nat>, steps: seq<Step>, d: nat) {
    |left| == |steps| + 1 && forall i | 0 <= i < |steps| :: Retires(left[i], left[i + 1], Share(steps[i], d))
  }

  lemma {:induction false} SharesAddUp(left: seq<nat>, steps: seq<Step>, d: nat)
    requires Retiring(left, steps, d)
    ensures left[|steps|] <= Max(0, left[0] - Runs(steps) * d)
    decreases |steps|
  {
    if steps == [] {
    } else {
      var n := |steps| - 1;
      SharesAddUp(left[..n + 1], steps[..n], d);
      assert Retires(left[n], left[n + 1], Share(steps[n], d));
      assert (Runs(steps[..n]) + 1) * d == Runs(steps[..n]) * d + d;
    }
  }

  /**
   * While fewer than `limit` shipments are stuck (and those may behave in any way), r runs leave at most
   * n - r * (limit - |stuck|) of the n others that were due, whatever happens in between.
   */
  lemma RunsDrainTheBacklog(ws: seq<World>, steps: seq<Step>, limit: nat, t: int, stuck: set<ShipmentId>)
    requires IsTrace(ws, steps, limit, t, stuck) && |stuck| < limit
    ensures Left(ws[|steps|], t, stuck) <= Max(0, Left(ws[0], t, stuck) - Runs(steps) * (limit - |stuck|))
  {
    var left := TraceRetires(ws, steps, limit, t, stuck);
    SharesAddUp(left, steps, limit - |stuck|);
  }

  /** ceil(n / (limit - |stuck|)) runs remove all the n others. */
  lemma EnoughRunsRemoveAll(ws: seq<World>, steps: seq<Step>, limit: nat, t: int, stuck: set<ShipmentId>)
    requires IsTrace(ws, steps, limit, t, stuck) && |stuck| < limit
    requires Runs(steps) >= (Left(ws[0], t, stuck) + limit - |stuck| - 1) / (limit - |stuck|)
    ensures Backlog(ws[|steps|].rows, t) <= stuck
  {
    RunsDrainTheBacklog(ws, steps, limit, t, stuck);
    CeilCovers(Left(ws[0], t, stuck), limit - |stuck|, Runs(steps));
    NoneLeft(ws[|steps|], t, stuck);
  }

  lemma NoneLeft(w: World, t: int, stuck: set<ShipmentId>)
    ensures Left(w, t, stuck) == 0 ==> Backlog(w.rows, t) <= stuck
  {
    if Left(w, t, stuck) == 0 {
      assert Backlog(w.rows, t) - stuck == {};
      assert forall x | x in Backlog(w.rows, t) :: x in stuck || x in Backlog(w.rows, t) - stuck;
    }
  }

  lemma CeilCovers(n: nat, d: nat, r: nat)
    requires d > 0 && r >= (n + d - 1) / d
    ensures r * d >= n
  {
    var c := (n + d - 1) / d;
    assert c * d + (n + d - 1) % d == n + d - 1;
    assert r * d == c * d + (r - c) * d;
  }

  // ----- Rows and objects -----

  /** Storage keys are unique; every object belongs to a file, and the files of kept shipments have theirs. */
  ghost predicate Matched(w: World) {
    && (forall f, g | f in w.files && g in w.files && w.files[f].key == w.files[g].key :: f == g)
    && (forall k | k in w.present :: exists f :: f in w.files && w.files[f].key == k)
    && (forall f | f in w.files && w.files[f].shipment in w.rows && w.rows[w.files[f].shipment].status != Deleted ::
         w.files[f].key in w.present)
  }

  /** A run, whatever fails in it, leaves no object without a file row and takes none from a shipment in use. */
  lemma RunKeepsMatched(w: World, w': World, r: Run, expiring: seq<ShipmentId>, removing: seq<ShipmentId>, result: RunResult)
    requires Matched(w) && RunOf(w, w', r, expiring, removing, result) && AllRemovable(removing, w.rows, r.now - r.grace)
    ensures Matched(w')
  {
    forall k | k in w'.present ensures exists f :: f in w'.files && w'.files[f].key == k {
      var f :| f in w.files && w.files[f].key == k;
      assert f in w'.files;
    }
    forall f | f in w'.files && w'.files[f].shipment in w'.rows && w'.rows[w'.files[f].shipment].status != Deleted
      ensures w'.files[f].key in w'.present
    {
      KeptRow(w, w', r, expiring, removing, result, w'.files[f].shipment);
      assert forall g | g in w.files && w.files[g].key == w.files[f].key :: g == f;
    }
  }

  lemma KeptRow(w: World, w': World, r: Run, expiring: seq<ShipmentId>, removing: seq<ShipmentId>, result: RunResult, id: ShipmentId)
    requires RunOf(w, w', r, expiring, removing, result) && id in w'.rows && w'.rows[id].status != Deleted
    ensures id in w.rows && w.rows[id].status != Deleted
  {
    var kept := w.rows - Removed(w, w');
    assert id in kept;
    assert id in Changed(kept, w'.rows) || w'.rows[id] == kept[id];
  }

  /** Only shipments whose grace period is over leave, with the objects of all their files. */
  lemma RemovalIsDue(w: World, w': World, r: Run, expiring: seq<ShipmentId>, result: RunResult, id: ShipmentId)
    requires RunOf(w, w', r, expiring, Removing(w, r), result) && id in Removed(w, w')
    ensures w.rows[id].status == Deleted && w.rows[id].deletedAt.Some? && w.rows[id].deletedAt.value + r.grace < r.now
    ensures forall f | f in FilesOf(w.files, id) :: w.files[f].key !in w'.present && f !in w'.files
  {
    RemovingListing(w, r);
  }
}
