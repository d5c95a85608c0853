/**
 * The in-memory fixed-window rate limiter: a bounded map of counters, evicted only when it is full.
 * Calls come with the time read from the clock; windows are in the same unit.
 */
module RateLimiter {
  import opened Common

  type Key = string

  datatype Counter = Counter(count: int, windowEnd: int)

  datatype Call = Call(key: Key, limit: int, window: int, now: int)

  /** `Full` is the refusal of a new key while the map is full of unexpired ones. */
  datatype Decision = Allowed | Limited | Full

  function RemoveExpired(counters: map<Key, Counter>, now: int): map<Key, Counter> {
    map k | k in counters && now < counters[k].windowEnd :: counters[k]
  }

  function Decide(counters: map<Key, Counter>, maxEntries: int, c: Call): (Decision, map<Key, Counter>) {
    if c.limit <= 0 then (Allowed, counters)
    else if c.key !in counters || c.now >= counters[c.key].windowEnd then
      var room :=
        if c.key !in counters && |counters| >= maxEntries then RemoveExpired(counters, c.now) else counters;
      if c.key !in counters && |room| >= maxEntries then (Full, room)
      else (Allowed, room[c.key := Counter(1, c.now + c.window)])
    else if counters[c.key].count >= c.limit then (Limited, counters)
    else (Allowed, counters[c.key := counters[c.key].(count := counters[c.key].count + 1)])
  }

  // ----- What is decided and what is written, entry by entry -----

  /** The entries whose window is not over. */
  ghost function Unexpired(counters: map<Key, Counter>, now: int): set<Key> {
    set k | k in counters && now < counters[k].windowEnd
  }

  /** The call's window is open and has had its `limit` calls. */
  ghost predicate UsedUp(counters: map<Key, Counter>, c: Call) {
    && c.limit > 0 && c.key in counters && c.now < counters[c.key].windowEnd && counters[c.key].count >= c.limit
  }

  /** The key is new, and the map is full of unexpired entries. */
  ghost predicate NoRoom(counters: map<Key, Counter>, maxEntries: int, c: Call) {
    c.limit > 0 && c.key !in counters && |counters| >= maxEntries && |Unexpired(counters, c.now)| >= maxEntries
  }

  /** The call's own counter is counted up or started anew, and others go only if they are expired and the map was full. */
  ghost predicate Rewritten(was: map<Key, Counter>, counters: map<Key, Counter>, maxEntries: int, c: Call, allowed: bool) {
    && (c.limit <= 0 || (!allowed && c.key in was) ==> counters == was)
    && (c.limit > 0 && allowed && c.key in was && c.now < was[c.key].windowEnd ==>
          counters == was[c.key := Counter(was[c.key].count + 1, was[c.key].windowEnd)])
    && (c.limit > 0 && allowed && !(c.key in was && c.now < was[c.key].windowEnd) ==>
          c.key in counters && counters[c.key] == Counter(1, c.now + c.window))
    && (!allowed && c.key !in was ==> c.key !in counters)
    && (forall k | k in counters && k != c.key :: k in was && counters[k] == was[k])
    && (forall k | k in was && k != c.key && k !in counters :: was[k].windowEnd <= c.now)
    && ((c.key in was || |was| < maxEntries) ==> was.Keys <= counters.Keys)
    && (c.limit > 0 && c.key !in was && |was| >= maxEntries ==>
          forall k | k in was && was[k].windowEnd <= c.now :: k !in counters)
  }

  /** Each of the three decisions, exactly. */
  lemma DecidedExactly(counters: map<Key, Counter>, maxEntries: int, c: Call)
    ensures var d := Decide(counters, maxEntries, c).0;
      && (d == Full <==> NoRoom(counters, maxEntries, c))
      && (d == Limited <==> UsedUp(counters, c))
      && (d == Allowed <==> !NoRoom(counters, maxEntries, c) && !UsedUp(counters, c))
  {
    assert RemoveExpired(counters, c.now).Keys == Unexpired(counters, c.now);
  }

  lemma DecisionWrites(counters: map<Key, Counter>, maxEntries: int, c: Call)
    ensures var (d, after) := Decide(counters, maxEntries, c);
      Rewritten(counters, after, maxEntries, c, d.Allowed?)
  {
  }

  const DEFAULT_MAX_ENTRIES := 100000

  class InMemoryRateLimiter {
    var counters: map<Key, Counter>
    const maxEntries: int

    ghost predicate Valid()
      reads this
    {
      0 < maxEntries && |counters| <= maxEntries
    }

    constructor (maxEntries: int)
      ensures Valid() && counters == map[]
      ensures this.maxEntries == if maxEntries > 0 then maxEntries else 100000
    {
      this.maxEntries := if maxEntries > 0 then maxEntries else DEFAULT_MAX_ENTRIES;
      counters := map[];
    }

    /**
     * The map never outgrows its bound. A call is refused exactly when its own counter is used up, or when it
     * is new and as many entries as the map may hold are unexpired.
     */
    method Allow(key: Key, limit: int, window: int, now: int) returns (ok: bool)
      requires Valid()
      modifies this`counters
      ensures Valid()
      ensures ok <==>
        !UsedUp(old(counters), Call(key, limit, window, now)) && !NoRoom(old(counters), maxEntries, Call(key, limit, window, now))
      ensures Rewritten(old(counters), counters, maxEntries, Call(key, limit, window, now), ok)
      ensures var (d, after) := Decide(old(counters), maxEntries, Call(key, limit, window, now));
        ok == d.Allowed? && counters == after
    {
      DecidedExactly(counters, maxEntries, Call(key, limit, window, now));
      DecisionWrites(counters, maxEntries, Call(key, limit, window, now));
      if limit <= 0 { return true; }
      if key !in counters || now >= counters[key].windowEnd {
        if key !in counters && |counters| >= maxEntries {
          EvictExpired(now);
          if |counters| >= maxEntries { return false; }
        }
        InsertCard(counters, key, Counter(1, now + window));
        counters := counters[key := Counter(1, now + window)];
        return true;
      }
      var entry := counters[key];
      if entry.count >= limit { return false; }
      InsertCard(counters, key, entry.(count := entry.count + 1));
      counters := counters[key := entry.(count := entry.count + 1)];
      return true;
    }

    /** The loop over the entries: after it, exactly the unexpired ones are left. */
    method EvictExpired(now: int)
      modifies this`counters
      ensures forall k :: k in counters <==> k in old(counters) && now < old(counters)[k].windowEnd
      ensures forall k | k in counters :: counters[k] == old(counters)[k]
      ensures counters == RemoveExpired(old(counters), now)
      ensures |counters| <= |old(counters)|
    {
      var rest := counters.Keys;
      while rest != {}
        invariant rest <= counters.Keys <= old(counters).Keys
        invariant forall k | k in counters :: counters[k] == old(counters)[k] && (k in rest || now < counters[k].windowEnd)
        invariant forall k | k in old(counters) && now < old(counters)[k].windowEnd :: k in counters
        decreases |rest|
      {
        var k :| k in rest;
        rest := rest - {k};
        if now >= counters[k].windowEnd {
          counters := counters - {k};
        }
      }
      SubsetCard(counters.Keys, old(counters).Keys);
    }
  }

  lemma InsertCard(m: map<Key, Counter>, k: Key, v: Counter)
    ensures |m[k := v]| == if k in m then |m| else |m| + 1
  {
    assert m[k := v].Keys == m.Keys + {k};
  }

  // ----- Histories -----

  datatype Event = Event(call: Call, decision: Decision)

  /** The map after a history of calls, and the history annotated with its decisions. */
  function Replay(calls: seq<Call>, maxEntries: int): (r: (seq<Event>, map<Key, Counter>))
    ensures |r.0| == |calls| && forall i | 0 <= i < |calls| :: r.0[i].call == calls[i]
  {
    if calls == [] then ([], map[])
    else
      var n := |calls| - 1;
      var (events, counters) := Replay(calls[..n], maxEntries);
      var (d, after) := Decide(counters, maxEntries, calls[n]);
      (events + [Event(calls[n], d)], after)
  }

  predicate NonDecreasing(calls: seq<Call>) {
    forall i, j | 0 <= i <= j < |calls| :: calls[i].now <= calls[j].now
  }

  lemma {:induction false} SizeStaysBounded(calls: seq<Call>, maxEntries: int)
    requires maxEntries > 0
    ensures |Replay(calls, maxEntries).1| <= maxEntries
  {
    if calls == [] {
    } else {
      var n := |calls| - 1;
      SizeStaysBounded(calls[..n], maxEntries);
      var (_, counters) := Replay(calls[..n], maxEntries);
      var c := calls[n];
      var room := RemoveExpired(counters, c.now);
      SubsetCard(room.Keys, counters.Keys);
      InsertCard(room, c.key, Counter(1, c.now + c.window));
      InsertCard(counters, c.key, Counter(1, c.now + c.window));
      if c.key in counters { InsertCard(counters, c.key, counters[c.key].(count := counters[c.key].count + 1)); }
    }
  }

  // ----- Eviction is invisible -----

  /** The reference: one counter per key, never evicted, so there is nothing to be full. */
  function RefDecide(counters: map<Key, Counter>, c: Call): (Decision, map<Key, Counter>) {
    if c.limit <= 0 then (Allowed, counters)
    else if c.key !in counters || c.now >= counters[c.key].windowEnd then
      (Allowed, counters[c.key := Counter(1, c.now + c.window)])
    else if counters[c.key].count >= c.limit then (Limited, counters)
    else (Allowed, counters[c.key := counters[c.key].(count := counters[c.key].count + 1)])
  }

  /** The calls that were not refused for fullness. */
  function Admitted(events: seq<Event>): seq<Call> {
    if events == [] then []
    else
      var n := |events| - 1;
      Admitted(events[..n]) + (if events[n].decision == Full then [] else [events[n].call])
  }

  function RefReplay(calls: seq<Call>): (r: (seq<Event>, map<Key, Counter>))
    ensures |r.0| == |calls| && forall i | 0 <= i < |calls| :: r.0[i].call == calls[i]
  {
    if calls == [] then ([], map[])
    else
      var n := |calls| - 1;
      var (events, counters) := RefReplay(calls[..n]);
      var (d, after) := RefDecide(counters, calls[n]);
      (events + [Event(calls[n], d)], after)
  }

  function DropFull(events: seq<Event>): seq<Event> {
    if events == [] then []
    else
      var n := |events| - 1;
      DropFull(events[..n]) + (if events[n].decision == Full then [] else [events[n]])
  }

  /** What the bounded map still has is right, and what it dropped had expired by `now`. */
  ghost predicate Agrees(counters: map<Key, Counter>, reference: map<Key, Counter>, now: int) {
    && (forall k | k in counters :: k in reference && counters[k] == reference[k])
    && (forall k | k in reference && k !in counters :: reference[k].windowEnd <= now)
  }

  /** The reference, fed the admitted calls, answers every one of them the same way. */
  ghost predicate Simulates(r: (seq<Event>, map<Key, Counter>), now: Option<int>) {
    var reference := RefReplay(Admitted(r.0));
    && reference.0 == DropFull(r.0)
    && (if now.None? then r.1 == reference.1 == map[] else Agrees(r.1, reference.1, now.value))
  }

  function Now(calls: seq<Call>): Option<int> {
    if calls == [] then None else Some(calls[|calls| - 1].now)
  }

  lemma StepAgrees(counters: map<Key, Counter>, reference: map<Key, Counter>, maxEntries: int, c: Call)
    requires Agrees(counters, reference, c.now)
    ensures var (d, after) := Decide(counters, maxEntries, c);
      var (refD, refAfter) := RefDecide(reference, c);
      if d == Full then Agrees(after, reference, c.now) else d == refD && Agrees(after, refAfter, c.now)
  {
  }

  /** Replaying one call more. */
  lemma ReplayLast(calls: seq<Call>, maxEntries: int)
    requires calls != []
    ensures var n := |calls| - 1;
      var (before, counters) := Replay(calls[..n], maxEntries);
      var (events, after) := Replay(calls, maxEntries);
      var (d, next) := Decide(counters, maxEntries, calls[n]);
      && events == before + [Event(calls[n], d)] && after == next
      && DropFull(events) == (if d == Full then DropFull(before) else DropFull(before) + [Event(calls[n], d)])
      && Admitted(events) == (if d == Full then Admitted(before) else Admitted(before) + [calls[n]])
  {
    var n := |calls| - 1;
    var (before, counters) := Replay(calls[..n], maxEntries);
    var (events, after) := Replay(calls, maxEntries);
    assert events[..n] == before;
  }

  lemma RefReplayLast(calls: seq<Call>, c: Call)
    ensures var (before, counters) := RefReplay(calls);
      var (d, next) := RefDecide(counters, c);
      RefReplay(calls + [c]) == (before + [Event(c, d)], next)
  {
    assert (calls + [c])[..|calls|] == calls;
  }

  /**
   * Evicting expired entries changes no decision except fullness refusals: on a clock that does not run
   * backwards, the other calls are decided exactly as a limiter that never evicts would decide them.
   */
  lemma {:induction false} EvictionIsInvisible(calls: seq<Call>, maxEntries: int)
    requires NonDecreasing(calls)
    ensures Simulates(Replay(calls, maxEntries), Now(calls))
  {
    if calls == [] {
    } else {
      var n := |calls| - 1;
      var c := calls[n];
      var r := Replay(calls[..n], maxEntries);
      EvictionIsInvisible(calls[..n], maxEntries);
      ReplayLast(calls, maxEntries);
      SimulateOneMore(r, Now(calls[..n]), maxEntries, c, Replay(calls, maxEntries));
    }
  }

  lemma SimulateOneMore(r: (seq<Event>, map<Key, Counter>), now: Option<int>, maxEntries: int, c: Call,
                        next: (seq<Event>, map<Key, Counter>))
    requires Simulates(r, now) && (now.Some? ==> now.value <= c.now)
    requires var (d, after) := Decide(r.1, maxEntries, c);
      && next == (r.0 + [Event(c, d)], after)
      && DropFull(next.0) == (if d == Full then DropFull(r.0) else DropFull(r.0) + [Event(c, d)])
      && Admitted(next.0) == (if d == Full then Admitted(r.0) else Admitted(r.0) + [c])
    ensures Simulates(next, Some(c.now))
  {
    var reference := RefReplay(Admitted(r.0));
    assert Agrees(r.1, reference.1, c.now);
    StepAgrees(r.1, reference.1, maxEntries, c);
    RefReplayLast(Admitted(r.0), c);
  }

  // ----- How much one window length can let through -----

  predicate Hit(e: Event, k: Key) {
    e.decision == Allowed && e.call.key == k
  }

  /** Allowed calls of `k` at time `a` or later. */
  function Since(events: seq<Event>, k: Key, a: int): nat {
    if events == [] then 0
    else
      var n := |events| - 1;
      Since(events[..n], k, a) + (if Hit(events[n], k) && events[n].call.now >= a then 1 else 0)
  }

  /** Allowed calls of `k` in the half-open interval from `a` to `b`. */
  function Within(events: seq<Event>, k: Key, a: int, b: int): nat {
    if events == [] then 0
    else
      var n := |events| - 1;
      Within(events[..n], k, a, b) + (if Hit(events[n], k) && a <= events[n].call.now < b then 1 else 0)
  }

  /** Every call of `k` carries the same limit and window, as one endpoint's do. */
  ghost predicate SameQuota(calls: seq<Call>, k: Key, limit: int, window: int) {
    forall i | 0 <= i < |calls| && calls[i].key == k :: calls[i].limit == limit && calls[i].window == window
  }

  /** The last window of `k` started at windowEnd - window with the first of its `count` calls. */
  ghost predicate QuotaInv(events: seq<Event>, counters: map<Key, Counter>, k: Key, limit: int, window: int) {
    if k !in counters then forall a :: Since(events, k, a) == 0
    else
      var Counter(count, end) := counters[k];
      && 1 <= count <= limit
      && Since(events, k, end) == 0
      && Since(events, k, end - window) == count
      && (forall a | a > end - window :: Since(events, k, a) < count)
      && (forall a | a > end - 2 * window :: Since(events, k, a) < count + limit)
  }

  lemma {:induction false} WithinIsSince(events: seq<Event>, k: Key, a: int, b: int)
    requires forall i | 0 <= i < |events| :: events[i].call.now < b
    ensures Within(events, k, a, b) == Since(events, k, a)
  {
    if events == [] {
    } else {
      WithinIsSince(events[..|events| - 1], k, a, b);
    }
  }

  lemma {:induction false} SinceAntitone(events: seq<Event>, k: Key, a: int, b: int)
    requires a <= b
    ensures Since(events, k, b) <= Since(events, k, a)
  {
    if events == [] {
    } else {
      SinceAntitone(events[..|events| - 1], k, a, b);
    }
  }

  lemma SinceLast(events: seq<Event>, e: Event, k: Key)
    ensures forall a :: Since(events + [e], k, a) == Since(events, k, a) + (if Hit(e, k) && e.call.now >= a then 1 else 0)
    ensures forall a, b :: Within(events + [e], k, a, b) == Within(events, k, a, b) + (if Hit(e, k) && a <= e.call.now < b then 1 else 0)
  {
    assert (events + [e])[..|events|] == events;
  }

  lemma NothingSinceTheEnd(events: seq<Event>, counters: map<Key, Counter>, k: Key, limit: int, window: int)
    requires k in counters && QuotaInv(events, counters, k, limit, window)
    ensures forall a | a >= counters[k].windowEnd :: Since(events, k, a) == 0
  {
    forall a | a >= counters[k].windowEnd ensures Since(events, k, a) == 0 {
      SinceAntitone(events, k, counters[k].windowEnd, a);
    }
  }

  /** The invariant, the start of the window in the past, and after an allowed call the bound up to it. */
  ghost predicate QuotaStep(next: seq<Event>, after: map<Key, Counter>, k: Key, limit: int, window: int, now: int, hit: bool) {
    && QuotaInv(next, after, k, limit, window)
    && (k in after ==> after[k].windowEnd - window <= now)
    && (hit ==> forall a | now - window < a :: Since(next, k, a) <= 2 * limit - 1)
  }

  lemma StepKeepsQuota(events: seq<Event>, counters: map<Key, Counter>, c: Call, k: Key, limit: int, window: int)
    requires limit > 0 && window > 0 && QuotaInv(events, counters, k, limit, window)
    requires c.key == k ==> c.limit == limit && c.window == window
    requires k in counters ==> counters[k].windowEnd - window <= c.now
    ensures var (d, after) := RefDecide(counters, c);
      QuotaStep(events + [Event(c, d)], after, k, limit, window, c.now, Hit(Event(c, d), k))
  {
    var (d, after) := RefDecide(counters, c);
    if !Hit(Event(c, d), k) {
      SinceLast(events, Event(c, d), k);
    } else if k !in counters || c.now >= counters[k].windowEnd {
      FirstCallKeepsQuota(events, counters, c, k, limit, window);
    } else {
      LaterCallKeepsQuota(events, counters, c, k, limit, window);
    }
  }

  /** A call that opens a window. */
  lemma FirstCallKeepsQuota(events: seq<Event>, counters: map<Key, Counter>, c: Call, k: Key, limit: int, window: int)
    requires limit > 0 && window > 0 && QuotaInv(events, counters, k, limit, window)
    requires (k in counters ==> c.now >= counters[k].windowEnd) && c.key == k && c.limit == limit && c.window == window
    ensures QuotaStep(events + [Event(c, Allowed)], counters[k := Counter(1, c.now + window)], k, limit, window, c.now, true)
  {
    if k in counters { NothingSinceTheEnd(events, counters, k, limit, window); }
    SinceLast(events, Event(c, Allowed), k);
  }

  /** A call inside the window. */
  lemma LaterCallKeepsQuota(events: seq<Event>, counters: map<Key, Counter>, c: Call, k: Key, limit: int, window: int)
    requires limit > 0 && window > 0 && k in counters && QuotaInv(events, counters, k, limit, window)
    requires counters[k].windowEnd - window <= c.now < counters[k].windowEnd && counters[k].count < limit && c.key == k
    ensures QuotaStep(events + [Event(c, Allowed)], counters[k := counters[k].(count := counters[k].count + 1)],
                      k, limit, window, c.now, true)
  {
    SinceLast(events, Event(c, Allowed), k);
  }

  /** The invariant after a history, with the start of the current window in the past. */
  ghost predicate RefState(calls: seq<Call>, k: Key, limit: int, window: int) {
    var (events, counters) := RefReplay(calls);
    && QuotaInv(events, counters, k, limit, window)
    && (k in counters ==> calls != [] && counters[k].windowEnd - window <= calls[|calls| - 1].now)
  }

  lemma {:induction false} RefQuota(calls: seq<Call>, k: Key, limit: int, window: int)
    requires limit > 0 && window > 0 && NonDecreasing(calls) && SameQuota(calls, k, limit, window)
    ensures RefState(calls, k, limit, window)
  {
    if calls == [] {
    } else {
      var n := |calls| - 1;
      RefQuota(calls[..n], k, limit, window);
      RefQuotaStep(calls[..n], calls[n], k, limit, window);
      assert calls == calls[..n] + [calls[n]];
    }
  }

  lemma RefQuotaStep(calls: seq<Call>, c: Call, k: Key, limit: int, window: int)
    requires limit > 0 && window > 0 && RefState(calls, k, limit, window)
    requires c.key == k ==> c.limit == limit && c.window == window
    requires calls != [] ==> calls[|calls| - 1].now <= c.now
    ensures RefState(calls + [c], k, limit, window)
    ensures Hit(RefReplay(calls + [c]).0[|calls|], k) ==>
      forall a | c.now - window < a :: Since(RefReplay(calls + [c]).0, k, a) <= 2 * limit - 1
  {
    var (events, counters) := RefReplay(calls);
    RefReplayLast(calls, c);
    StepKeepsQuota(events, counters, c, k, limit, window);
  }

  lemma RefWithinStep(calls: seq<Call>, c: Call, k: Key, limit: int, window: int, a: int)
    requires limit > 0 && window > 0 && RefState(calls, k, limit, window) && NonDecreasing(calls + [c])
    requires c.key == k ==> c.limit == limit && c.window == window
    requires Within(RefReplay(calls).0, k, a, a + window) <= 2 * limit - 1
    ensures Within(RefReplay(calls + [c]).0, k, a, a + window) <= 2 * limit - 1
  {
    var next := RefReplay(calls + [c]).0;
    RefReplayLast(calls, c);
    assert next[..|calls|] == RefReplay(calls).0;
    if Hit(next[|calls|], k) && a <= c.now < a + window {
      if calls != [] { assert (calls + [c])[|calls| - 1].now <= (calls + [c])[|calls|].now; }
      RefQuotaStep(calls, c, k, limit, window);
      WithinIsSince(next, k, a, a + window) by {
        assert forall i | 0 <= i < |next| :: next[i].call.now <= (calls + [c])[|calls|].now;
      }
    }
  }

  lemma {:induction false} RefQuotaHolds(calls: seq<Call>, k: Key, limit: int, window: int, a: int)
    requires limit > 0 && window > 0 && NonDecreasing(calls) && SameQuota(calls, k, limit, window)
    ensures Within(RefReplay(calls).0, k, a, a + window) <= 2 * limit - 1
  {
    if calls == [] {
    } else {
      var n := |calls| - 1;
      RefQuotaHolds(calls[..n], k, limit, window, a);
      RefQuota(calls[..n], k, limit, window);
      assert calls == calls[..n] + [calls[n]];
      RefWithinStep(calls[..n], calls[n], k, limit, window, a);
    }
  }

  /** Fullness refusals are not allowed calls, so dropping them changes no count. */
  lemma {:induction false} DropFullKeepsCounts(events: seq<Event>, k: Key, a: int, b: int)
    ensures Within(DropFull(events), k, a, b) == Within(events, k, a, b)
  {
    if events == [] {
    } else {
      var n := |events| - 1;
      DropFullKeepsCounts(events[..n], k, a, b);
      if events[n].decision == Full {
        assert DropFull(events[..n]) + [] == DropFull(events[..n]);
      } else {
        SinceLast(DropFull(events[..n]), events[n], k);
      }
    }
  }

  lemma SimulatedQuotaHolds(r: (seq<Event>, map<Key, Counter>), now: Option<int>, k: Key, limit: int, window: int, a: int)
    requires limit > 0 && window > 0 && NonDecreasing(Admitted(r.0)) && SameQuota(Admitted(r.0), k, limit, window)
    requires Simulates(r, now)
    ensures Within(r.0, k, a, a + window) <= 2 * limit - 1
  {
    RefQuotaHolds(Admitted(r.0), k, limit, window, a);
    DropFullKeepsCounts(r.0, k, a, a + window);
  }

  lemma {:induction false} AdmittedIsOrdered(calls: seq<Call>, maxEntries: int, k: Key, limit: int, window: int)
    requires NonDecreasing(calls) && SameQuota(calls, k, limit, window)
    ensures var admitted := Admitted(Replay(calls, maxEntries).0);
      && NonDecreasing(admitted) && SameQuota(admitted, k, limit, window)
      && (admitted != [] ==> calls != [] && admitted[|admitted| - 1].now <= calls[|calls| - 1].now)
  {
    if calls == [] {
    } else {
      var n := |calls| - 1;
      AdmittedIsOrdered(calls[..n], maxEntries, k, limit, window);
      ReplayLast(calls, maxEntries);
      if n > 0 { assert calls[n - 1].now <= calls[n].now; }
      var before := Admitted(Replay(calls[..n], maxEntries).0);
      AppendIsOrdered(before, calls[n], k, limit, window);
    }
  }

  lemma AppendIsOrdered(calls: seq<Call>, c: Call, k: Key, limit: int, window: int)
    requires NonDecreasing(calls) && SameQuota(calls, k, limit, window)
    requires calls != [] ==> calls[|calls| - 1].now <= c.now
    requires c.key == k ==> c.limit == limit && c.window == window
    ensures NonDecreasing(calls + [c]) && SameQuota(calls + [c], k, limit, window)
  {
  }

  /**
   * The quota: on any history of calls with a nondecreasing clock, for any key, and in any half-open
   * interval of one window length, the bounded limiter allows at most 2 * limit - 1 calls of the key.
   */
  lemma QuotaHolds(calls: seq<Call>, maxEntries: int, k: Key, limit: int, window: int, a: int)
    requires limit > 0 && window > 0 && NonDecreasing(calls) && SameQuota(calls, k, limit, window)
    ensures Within(Replay(calls, maxEntries).0, k, a, a + window) <= 2 * limit - 1
  {
    AdmittedIsOrdered(calls, maxEntries, k, limit, window);
    assert Simulates(Replay(calls, maxEntries), Now(calls)) by { EvictionIsInvisible(calls, maxEntries); }
    SimulatedQuotaHolds(Replay(calls, maxEntries), Now(calls), k, limit, window, a);
  }

  function Repeat(c: Call, m: nat): seq<Call> {
    if m == 0 then [] else Repeat(c, m - 1) + [c]
  }

  /** What one allowed call adds to the count of an interval that contains it. */
  ghost predicate Counts(calls: seq<Call>, maxEntries: int, k: Key, counter: Counter, a: int, b: int, hits: nat) {
    var r := Replay(calls, maxEntries);
    k in r.1 && r.1[k] == counter && Within(r.0, k, a, b) == hits
  }

  lemma AllowedCallCounts(calls: seq<Call>, maxEntries: int, c: Call, counter: Counter, a: int, b: int, hits: nat)
    requires Counts(calls, maxEntries, c.key, counter, a, b, hits)
    requires 0 < c.limit && (c.now < counter.windowEnd ==> counter.count < c.limit)
    ensures var next := if c.now < counter.windowEnd then counter.(count := counter.count + 1) else Counter(1, c.now + c.window);
      Counts(calls + [c], maxEntries, c.key, next, a, b, hits + if a <= c.now < b then 1 else 0)
  {
    var longer := calls + [c];
    assert longer[..|calls|] == calls;
    ReplayLast(longer, maxEntries);
    SinceLast(Replay(calls, maxEntries).0, Event(c, Allowed), c.key);
  }

  /** While the window of `k` has room, m more calls at one instant are all allowed. */
  lemma {:induction false} BurstIsAllowed(calls: seq<Call>, maxEntries: int, c: Call, m: nat, counter: Counter, a: int, b: int, hits: nat)
    requires Counts(calls, maxEntries, c.key, counter, a, b, hits) && a <= c.now < b
    requires c.now < counter.windowEnd && counter.count + m <= c.limit && 0 < c.limit
    ensures Counts(calls + Repeat(c, m), maxEntries, c.key, counter.(count := counter.count + m), a, b, hits + m)
  {
    if m == 0 {
      assert calls + [] == calls;
    } else {
      BurstIsAllowed(calls, maxEntries, c, m - 1, counter, a, b, hits);
      AllowedCallCounts(calls + Repeat(c, m - 1), maxEntries, c, counter.(count := counter.count + m - 1), a, b, hits + m - 1);
      assert calls + Repeat(c, m) == calls + Repeat(c, m - 1) + [c];
    }
  }

  /** One call at time 0, then limit - 1 just before its window ends. */
  function FirstWindow(k: Key, limit: nat, window: nat): seq<Call>
    requires limit > 0
  {
    [Call(k, limit, window, 0)] + Repeat(Call(k, limit, window, window - 1), limit - 1)
  }

  /** The history that attains the bound: a first window, and a whole second one right after it. */
  function WorstCase(k: Key, limit: nat, window: nat): seq<Call>
    requires limit > 0
  {
    FirstWindow(k, limit, window) + [Call(k, limit, window, window)] + Repeat(Call(k, limit, window, window), limit - 1)
  }

  lemma FirstCallCounts(c: Call, maxEntries: nat, a: int, b: int)
    requires c.limit > 0 && maxEntries > 0 && c.now < a
    ensures Counts([c], maxEntries, c.key, Counter(1, c.now + c.window), a, b, 0)
  {
    assert [c][..0] == [];
    ReplayLast([c], maxEntries);
    SinceLast([], Event(c, Allowed), c.key);
  }

  lemma FirstWindowCounts(k: Key, limit: nat, window: nat, maxEntries: nat)
    requires limit > 0 && window > 1 && maxEntries > 0
    ensures Counts(FirstWindow(k, limit, window), maxEntries, k, Counter(limit, window), window - 1, 2 * window - 1, limit - 1)
  {
    var first, late := Call(k, limit, window, 0), Call(k, limit, window, window - 1);
    FirstCallCounts(first, maxEntries, window - 1, 2 * window - 1);
    BurstIsAllowed([first], maxEntries, late, limit - 1, Counter(1, window), window - 1, 2 * window - 1, 0);
  }

  lemma SecondWindowStarts(k: Key, limit: nat, window: nat, maxEntries: nat)
    requires limit > 0 && window > 1 && maxEntries > 0
    ensures Counts(FirstWindow(k, limit, window) + [Call(k, limit, window, window)], maxEntries, k,
                   Counter(1, 2 * window), window - 1, 2 * window - 1, limit)
  {
    FirstWindowCounts(k, limit, window, maxEntries);
    AllowedCallCounts(FirstWindow(k, limit, window), maxEntries, Call(k, limit, window, window),
                      Counter(limit, window), window - 1, 2 * window - 1, limit - 1);
  }

  lemma {:induction false} RepeatFacts(c: Call, m: nat)
    ensures |Repeat(c, m)| == m && forall i | 0 <= i < m :: Repeat(c, m)[i] == c
  {
    if m == 0 {
    } else {
      RepeatFacts(c, m - 1);
    }
  }

  /** The history is one that the quota speaks of: an ordered clock, and one limit and window for the key. */
  lemma WorstCaseQualifies(k: Key, limit: nat, window: nat)
    requires limit > 0 && window > 1
    ensures NonDecreasing(WorstCase(k, limit, window)) && SameQuota(WorstCase(k, limit, window), k, limit, window)
  {
    RepeatFacts(Call(k, limit, window, window - 1), limit - 1);
    RepeatFacts(Call(k, limit, window, window), limit - 1);
  }

  /** The bound is attained, by a history that QuotaHolds covers, for every limit and every window of at least two ticks. */
  lemma QuotaIsTight(k: Key, limit: nat, window: nat, maxEntries: nat)
    requires limit > 0 && window > 1 && maxEntries > 0
    ensures NonDecreasing(WorstCase(k, limit, window)) && SameQuota(WorstCase(k, limit, window), k, limit, window)
    ensures Within(Replay(WorstCase(k, limit, window), maxEntries).0, k, window - 1, 2 * window - 1) == 2 * limit - 1
  {
    WorstCaseQualifies(k, limit, window);
    SecondWindowStarts(k, limit, window, maxEntries);
    var h := FirstWindow(k, limit, window) + [Call(k, limit, window, window)];
    var hits := 2 * limit - 1;
    BurstIsAllowed(h, maxEntries, Call(k, limit, window, window), limit - 1, Counter(1, 2 * window), window - 1, 2 * window - 1, limit);
    assert Counts(WorstCase(k, limit, window), maxEntries, k, Counter(limit, 2 * window), window - 1, 2 * window - 1, hits);
  }
}
