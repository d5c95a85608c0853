/**
 * Password verification of one token by any number of overlapping requests. A request is checked by the
 * guard, looks up the shipment and compares the password on its own, and only then comes back to record
 * a failure or to reset. Clock readings come in the order in which the guard is entered.
 */
module VerifyProtocol {
  import opened Common
  import opened AccessGuard

  /** The guard's state of the token, the requests past their check, and the failures since the last reset. */
  datatype System = System(st: AttemptState, checked: set<nat>, failures: seq<int>, now: int)

  datatype Action =
    | Check(r: nat, at: int)
    | Record(r: nat, at: int)
    | Reset(r: nat)
    | Drop(r: nat)            // no access, no password needed, or the request is gone

  predicate Enabled(s: System, a: Action) {
    match a
    case Check(r, at) => r !in s.checked && s.now <= at && !Locked(s.st, at)
    case Record(r, at) => r in s.checked && s.now <= at
    case Reset(r) => r in s.checked
    case Drop(r) => r in s.checked
  }

  function Apply(s: System, a: Action, cfg: Config): System
    requires Enabled(s, a)
  {
    match a
    case Check(r, at) => s.(checked := s.checked + {r}, now := at)
    case Record(r, at) => System(Fail(s.st, at, cfg), s.checked - {r}, s.failures + [at], at)
    case Reset(r) => System(ZERO, s.checked - {r}, [], s.now)
    case Drop(r) => s.(checked := s.checked - {r})
  }

  function Exec(s: System, acts: seq<Action>, cfg: Config): Option<System>
    decreases |acts|
  {
    if acts == [] then Some(s)
    else if Enabled(s, acts[0]) then Exec(Apply(s, acts[0], cfg), acts[1..], cfg)
    else None
  }

  /** A token nobody has tried yet; the clock is past the zero time. */
  function Start(now: int): System
    requires now > 0
  {
    System(ZERO, {}, [], now)
  }

  /** No state of the run has more than k requests between their check and their end. */
  ghost predicate AtMostInFlight(s: System, acts: seq<Action>, k: nat, cfg: Config)
    decreases |acts|
  {
    && |s.checked| <= k
    && (acts != [] && Enabled(s, acts[0]) ==> AtMostInFlight(Apply(s, acts[0], cfg), acts[1..], k, cfg))
  }

  // ----- The invariant -----

  /** Two windows of failures below the threshold but for the last one, and what overlaps the lock. */
  function Bound(cfg: Config, k: nat): int {
    2 * cfg.maxAttempts + k - 2
  }

  ghost predicate Timed(s: System) {
    0 < s.now && Ordered(s.failures) && forall i | 0 <= i < |s.failures| :: s.failures[i] <= s.now
  }

  /** A window begins with a lock or, when that lock is over, with a failure; either was in the past. */
  ghost predicate WindowShape(s: System, cfg: Config) {
    && 0 <= s.st.failures < cfg.maxAttempts
    && (s.st.lockedTil == s.st.windowTil || s.st.lockedTil < s.st.windowTil - cfg.lockout)
    && (s.failures == [] ==> s.st == ZERO)
    && (s.failures != [] ==> s.st.windowTil - cfg.lockout <= s.now)
  }

  /**
   * Nothing was recorded after the window; at most the stored count since it began; and in a window that
   * no lock began at most maxAttempts - 1 more in the lockout length before.
   */
  ghost predicate WindowCounts(ts: seq<int>, st: AttemptState, cfg: Config) {
    && (forall a | a > st.windowTil :: CountSince(ts, a) == 0)
    && (forall a | a > st.windowTil - cfg.lockout :: CountSince(ts, a) <= st.failures)
    && (st.lockedTil < st.windowTil ==>
          forall a | a > st.windowTil - 2 * cfg.lockout :: CountSince(ts, a) <= st.failures + cfg.maxAttempts - 1)
  }

  /** While the token is locked nobody passes the check: what is still to come is in flight already. */
  ghost predicate LockedCounts(s: System, cfg: Config, k: nat) {
    Locked(s.st, s.now) ==>
      forall a | a > s.st.windowTil - 2 * cfg.lockout :: CountSince(s.failures, a) + |s.checked| <= Bound(cfg, k)
  }

  /** The failures in the half-open interval of one lockout length that begins at a. */
  function InLockout(ts: seq<int>, a: int, cfg: Config): nat {
    CountIn(ts, a, a + cfg.lockout)
  }

  ghost predicate AllBounded(ts: seq<int>, cfg: Config, k: nat) {
    forall a :: InLockout(ts, a, cfg) <= Bound(cfg, k)
  }

  ghost predicate Inv(s: System, cfg: Config, k: nat) {
    && Timed(s) && WindowShape(s, cfg) && WindowCounts(s.failures, s.st, cfg)
    && LockedCounts(s, cfg, k) && AllBounded(s.failures, cfg, k)
  }

  lemma SinceOneMore(ts: seq<int>, t: int, a: int)
    ensures CountSince(ts + [t], a) == CountSince(ts, a) + (if t >= a then 1 else 0)
  {
    assert (ts + [t])[..|ts|] == ts;
  }

  lemma InOneMore(ts: seq<int>, t: int, a: int, b: int)
    ensures CountIn(ts + [t], a, b) == CountIn(ts, a, b) + (if a <= t < b then 1 else 0)
  {
    assert (ts + [t])[..|ts|] == ts;
  }

  lemma CountOfNone(a: int, b: int)
    ensures CountSince([], a) == 0 && CountIn([], a, b) == 0
  {
  }

  /** A window that is over, or a lock that is: what the failure at t finds since t - lockout. */
  lemma UnlockedCounts(s: System, t: int, a: int, cfg: Config)
    requires Timed(s) && WindowShape(s, cfg) && WindowCounts(s.failures, s.st, cfg) && cfg.lockout > 0
    requires s.now <= t && !Locked(s.st, t) && a > t - cfg.lockout
    ensures t > s.st.windowTil ==> CountSince(s.failures, a) <= cfg.maxAttempts - 1
    ensures t <= s.st.windowTil ==> CountSince(s.failures, a) <= s.st.failures + cfg.maxAttempts - 1
  {
    if s.failures == [] { CountOfNone(a, a); }
  }

  lemma RecordKeepsWindow(s: System, r: nat, t: int, cfg: Config)
    requires Timed(s) && WindowShape(s, cfg) && WindowCounts(s.failures, s.st, cfg) && cfg.lockout > 0 && cfg.maxAttempts >= 1
    requires Enabled(s, Record(r, t))
    ensures WindowCounts(s.failures + [t], Fail(s.st, t, cfg), cfg)
  {
    var ts, st := s.failures + [t], Fail(s.st, t, cfg);
    forall a | a > st.windowTil ensures CountSince(ts, a) == 0 {
      SinceOneMore(s.failures, t, a);
      NothingSince(s.failures, a);
    }
    forall a | a > st.windowTil - cfg.lockout ensures CountSince(ts, a) <= st.failures {
      SinceOneMore(s.failures, t, a);
      if a > t { NothingSince(s.failures, a); }
    }
    forall a | a > st.windowTil - 2 * cfg.lockout && st.lockedTil < st.windowTil
      ensures CountSince(ts, a) <= st.failures + cfg.maxAttempts - 1
    {
      SinceOneMore(s.failures, t, a);
      if t > s.st.windowTil { UnlockedCounts(s, t, a, cfg); }
    }
  }

  /** A failure recorded while unlocked: at most a lock's worth with what went before. */
  lemma UnlockedRecord(s: System, t: int, a: int, cfg: Config)
    requires Timed(s) && WindowShape(s, cfg) && WindowCounts(s.failures, s.st, cfg) && cfg.lockout > 0 && cfg.maxAttempts >= 1
    requires s.now <= t && !Locked(s.st, t) && a > t - cfg.lockout
    ensures CountSince(s.failures + [t], a) <= 2 * cfg.maxAttempts - 1
  {
    SinceOneMore(s.failures, t, a);
    UnlockedCounts(s, t, a, cfg);
  }

  /** A failure recorded while locked was in flight: the sum of recorded and open ones does not grow. */
  lemma LockedRecord(s: System, r: nat, t: int, a: int, cfg: Config, k: nat)
    requires WindowShape(s, cfg) && LockedCounts(s, cfg, k) && Timed(s)
    requires Enabled(s, Record(r, t)) && Locked(s.st, t) && a > s.st.windowTil - 2 * cfg.lockout
    ensures CountSince(s.failures + [t], a) + |s.checked - {r}| <= Bound(cfg, k)
  {
    SinceOneMore(s.failures, t, a);
  }

  lemma RecordKeepsLocked(s: System, r: nat, t: int, cfg: Config, k: nat)
    requires Inv(s, cfg, k) && cfg.lockout > 0 && cfg.maxAttempts >= 1 && |s.checked| <= k && Enabled(s, Record(r, t))
    ensures LockedCounts(Apply(s, Record(r, t), cfg), cfg, k)
  {
    var u := Apply(s, Record(r, t), cfg);
    forall a | Locked(u.st, u.now) && a > u.st.windowTil - 2 * cfg.lockout
      ensures CountSince(u.failures, a) + |u.checked| <= Bound(cfg, k)
    {
      if Locked(s.st, t) { LockedRecord(s, r, t, a, cfg, k); } else { UnlockedRecord(s, t, a, cfg); }
    }
  }

  lemma RecordKeepsBound(s: System, r: nat, t: int, cfg: Config, k: nat)
    requires Inv(s, cfg, k) && cfg.lockout > 0 && cfg.maxAttempts >= 1 && |s.checked| <= k && Enabled(s, Record(r, t))
    ensures AllBounded(s.failures + [t], cfg, k)
  {
    assert s.checked != {};
    forall a ensures InLockout(s.failures + [t], a, cfg) <= Bound(cfg, k) {
      InOneMore(s.failures, t, a, a + cfg.lockout);
      assert InLockout(s.failures, a, cfg) <= Bound(cfg, k);
      if a <= t < a + cfg.lockout {
        CountInIsSince(s.failures + [t], a, a + cfg.lockout);
        if Locked(s.st, t) { LockedRecord(s, r, t, a, cfg, k); } else { UnlockedRecord(s, t, a, cfg); }
      }
    }
  }

  lemma RecordKeepsInv(s: System, r: nat, t: int, cfg: Config, k: nat)
    requires Inv(s, cfg, k) && cfg.lockout > 0 && cfg.maxAttempts >= 1 && |s.checked| <= k && Enabled(s, Record(r, t))
    ensures Inv(Apply(s, Record(r, t), cfg), cfg, k)
  {
    RecordKeepsWindow(s, r, t, cfg);
    RecordKeepsLocked(s, r, t, cfg, k);
    RecordKeepsBound(s, r, t, cfg, k);
  }

  lemma ZeroInv(s: System, cfg: Config, k: nat)
    requires s.st == ZERO && s.failures == [] && s.now > 0 && cfg.lockout > 0 && cfg.maxAttempts >= 1 && |s.checked| <= k
    ensures Inv(s, cfg, k)
  {
    forall a ensures CountSince([], a) == 0 && InLockout([], a, cfg) == 0 { CountOfNone(a, a + cfg.lockout); }
  }

  /** Every step of every request keeps the invariant, as long as no more than k are in flight. */
  lemma StepKeepsInv(s: System, a: Action, cfg: Config, k: nat)
    requires Inv(s, cfg, k) && cfg.lockout > 0 && cfg.maxAttempts >= 1 && |s.checked| <= k && Enabled(s, a)
    ensures Inv(Apply(s, a, cfg), cfg, k)
  {
    match a {
      case Check(r, at) =>
      case Record(r, at) => RecordKeepsInv(s, r, at, cfg, k);
      case Reset(r) => ZeroInv(Apply(s, a, cfg), cfg, k);
      case Drop(r) =>
    }
  }

  lemma {:induction false} RunKeepsInv(s: System, acts: seq<Action>, cfg: Config, k: nat)
    requires Inv(s, cfg, k) && cfg.lockout > 0 && cfg.maxAttempts >= 1
    requires AtMostInFlight(s, acts, k, cfg) && Exec(s, acts, cfg).Some?
    ensures Inv(Exec(s, acts, cfg).value, cfg, k)
    decreases |acts|
  {
    if acts == [] {
    } else {
      StepKeepsInv(s, acts[0], cfg, k);
      RunKeepsInv(Apply(s, acts[0], cfg), acts[1..], cfg, k);
    }
  }

  // ----- Main results -----

  /**
   * With at most k requests of a token in flight, whatever they find and whenever they come back, any
   * half-open interval of one lockout length holds at most 2 * maxAttempts + k - 2 failures recorded
   * since the last reset; and the stored count never reaches maxAttempts.
   */
  lemma RequestsAreBounded(now: int, acts: seq<Action>, cfg: Config, k: nat, a: int)
    requires now > 0 && cfg.maxAttempts >= 1 && cfg.lockout > 0
    requires Exec(Start(now), acts, cfg).Some? && AtMostInFlight(Start(now), acts, k, cfg)
    ensures var s := Exec(Start(now), acts, cfg).value;
      && CountIn(s.failures, a, a + cfg.lockout) <= 2 * cfg.maxAttempts + k - 2
      && 0 <= s.st.failures < cfg.maxAttempts
  {
    ZeroInv(Start(now), cfg, k);
    RunKeepsInv(Start(now), acts, cfg, k);
    var s := Exec(Start(now), acts, cfg).value;
    assert InLockout(s.failures, a, cfg) <= Bound(cfg, k);
  }

  /** In every run the guard's state is the one that the failures recorded since the last reset lead to. */
  lemma {:induction false} StateFollowsFailures(s: System, acts: seq<Action>, cfg: Config)
    requires s.st == AfterFailures(s.failures, cfg) && Exec(s, acts, cfg).Some?
    ensures var t := Exec(s, acts, cfg).value;
      t.st == AfterFailures(t.failures, cfg)
    decreases |acts|
  {
    if acts == [] {
    } else {
      var t := Apply(s, acts[0], cfg);
      if acts[0].Record? {
        assert t.failures[..|t.failures| - 1] == s.failures;
      }
      StateFollowsFailures(t, acts[1..], cfg);
    }
  }

  /** With one request at a time, the token is not locked while that request is open. */
  ghost predicate OneAtATime(s: System, cfg: Config) {
    && EachChecked(s.failures, cfg) && s.st == AfterFailures(s.failures, cfg) && 0 < s.now
    && (s.failures != [] ==> s.failures[|s.failures| - 1] <= s.now)
    && (s.checked != {} ==> !Locked(s.st, s.now))
  }

  lemma OneAtATimeStep(s: System, a: Action, cfg: Config)
    requires OneAtATime(s, cfg) && |s.checked| <= 1 && Enabled(s, a) && |Apply(s, a, cfg).checked| <= 1
    ensures OneAtATime(Apply(s, a, cfg), cfg)
  {
    var t := Apply(s, a, cfg);
    if a.Check? {
      DisjointCard(s.checked, {a.r});
      assert s.checked == {};
    } else {
      SubsetCard({a.r}, s.checked);
      assert t.checked == {};
    }
    if a.Record? {
      assert t.failures[..|t.failures| - 1] == s.failures;
    }
  }

  lemma {:induction false} OneAtATimeRun(s: System, acts: seq<Action>, cfg: Config)
    requires OneAtATime(s, cfg) && AtMostInFlight(s, acts, 1, cfg) && Exec(s, acts, cfg).Some?
    ensures OneAtATime(Exec(s, acts, cfg).value, cfg)
    decreases |acts|
  {
    if acts == [] {
    } else {
      assert AtMostInFlight(Apply(s, acts[0], cfg), acts[1..], 1, cfg);
      OneAtATimeStep(s, acts[0], cfg);
      OneAtATimeRun(Apply(s, acts[0], cfg), acts[1..], cfg);
    }
  }

  /** One request at a time: every failure is recorded while the token is not locked. */
  lemma RequestsRecordCheckedFailures(now: int, acts: seq<Action>, cfg: Config)
    requires now > 0 && Exec(Start(now), acts, cfg).Some? && AtMostInFlight(Start(now), acts, 1, cfg)
    ensures EachChecked(Exec(Start(now), acts, cfg).value.failures, cfg)
  {
    OneAtATimeRun(Start(now), acts, cfg);
  }

  /** How a request ends once it has passed its check. */
  function Ending(r: nat, at: int, finding: Finding): Action {
    match finding
    case WrongPassword => Record(r, at)
    case RightPassword => Reset(r)
    case _ => Drop(r)
  }

  /** A request with nothing in between is the guard's part of VerifyAccess; a locked token refuses it. */
  lemma StepsAreARequest(s: System, r: nat, checkedAt: int, recordedAt: int, finding: Finding, cfg: Config)
    requires r !in s.checked && s.now <= checkedAt <= recordedAt
    ensures var t := Exec(s, [Check(r, checkedAt)] + [Ending(r, recordedAt, finding)], cfg);
      && (t.Some? <==> !Locked(s.st, checkedAt))
      && (t.Some? ==> t.value.st == AfterAttempt(s.st, Attempt(checkedAt, recordedAt, finding), cfg) && t.value.checked == s.checked)
  {
    var check, ending := Check(r, checkedAt), Ending(r, recordedAt, finding);
    if Enabled(s, check) {
      var mid := Apply(s, check, cfg);
      ExecStep(s, check, [ending], cfg);
      ExecStep(mid, ending, [], cfg);
      assert [ending] + [] == [ending] && s.checked + {r} - {r} == s.checked;
    }
  }

  // ----- The bound is attained, for every k -----

  /** n requests at one instant, one after another, all with a wrong password. */
  function Tries(t: int, n: nat): seq<Action> {
    if n == 0 then [] else Tries(t, n - 1) + ([Check(0, t)] + [Record(0, t)])
  }

  function Checks(t: int, k: nat): seq<Action> {
    if k == 0 then [] else Checks(t, k - 1) + [Check(k - 1, t)]
  }

  function Records(t: int, k: nat): seq<Action> {
    if k == 0 then [] else [Record(k - 1, t)] + Records(t, k - 1)
  }

  /**
   * A lock; maxAttempts - 1 failures at the instant it ends, in the window it began; a tick later as many
   * again in a new window; and then k requests that all pass the check before the first of them records.
   */
  function WorstRun(cfg: Config, k: nat): seq<Action>
    requires cfg.maxAttempts >= 1
  {
    var m, end := cfg.maxAttempts, 1 + cfg.lockout;
    Tries(1, m) + (Tries(end, m - 1) + (Tries(end + 1, m - 1) + (Checks(end + 1, k) + Records(end + 1, k))))
  }

  lemma {:induction false} ExecConcat(s: System, xs: seq<Action>, ys: seq<Action>, cfg: Config)
    requires Exec(s, xs, cfg).Some?
    ensures Exec(s, xs + ys, cfg) == Exec(Exec(s, xs, cfg).value, ys, cfg)
    decreases |xs|
  {
    if xs == [] {
      assert xs + ys == ys;
    } else {
      assert (xs + ys)[1..] == xs[1..] + ys;
      ExecConcat(Apply(s, xs[0], cfg), xs[1..], ys, cfg);
    }
  }

  /** A history that each check allows can be run, one request after another. */
  ghost predicate Reached(s: System, ts: seq<int>, cfg: Config, t: int) {
    s.failures == ts && s.st == AfterFailures(ts, cfg) && s.checked == {} && s.now <= t
  }

  lemma {:induction false} TriesRun(s: System, ts: seq<int>, t: int, n: nat, cfg: Config)
    requires Reached(s, ts, cfg, t) && EachChecked(ts + Repeat(t, n), cfg)
    ensures Exec(s, Tries(t, n), cfg).Some? && Reached(Exec(s, Tries(t, n), cfg).value, ts + Repeat(t, n), cfg, t)
    decreases n
  {
    if n == 0 {
      assert ts + [] == ts;
    } else {
      var longer, before := ts + Repeat(t, n), ts + Repeat(t, n - 1);
      assert longer == before + [t];
      assert longer[..|longer| - 1] == before;
      TriesRun(s, ts, t, n - 1, cfg);
      var mid := Exec(s, Tries(t, n - 1), cfg).value;
      ExecConcat(s, Tries(t, n - 1), [Check(0, t)] + [Record(0, t)], cfg);
      OneTry(mid, t, cfg);
    }
  }

  lemma OneTry(s: System, t: int, cfg: Config)
    requires s.checked == {} && s.now <= t && !Locked(s.st, t)
    ensures Exec(s, [Check(0, t)] + [Record(0, t)], cfg) == Some(System(Fail(s.st, t, cfg), {}, s.failures + [t], t))
  {
    ExecStep(s, Check(0, t), [Record(0, t)], cfg);
    ExecStep(Apply(s, Check(0, t), cfg), Record(0, t), [], cfg);
    assert [Record(0, t)] + [] == [Record(0, t)] && s.checked + {0} - {0} == {};
  }

  lemma {:induction false} ChecksRun(s: System, t: int, k: nat, cfg: Config)
    requires s.checked == {} && s.now <= t && !Locked(s.st, t)
    ensures Exec(s, Checks(t, k), cfg) == Some(s.(checked := Below(k), now := if k == 0 then s.now else t))
    decreases k
  {
    if k == 0 {
    } else {
      ChecksRun(s, t, k - 1, cfg);
      var mid := s.(checked := Below(k - 1), now := if k == 1 then s.now else t);
      ExecConcat(s, Checks(t, k - 1), [Check(k - 1, t)], cfg);
      assert [Check(k - 1, t)][1..] == [];
      assert Exec(mid, [Check(k - 1, t)], cfg) == Exec(Apply(mid, Check(k - 1, t), cfg), [], cfg);
    }
  }

  lemma {:induction false} RecordsRun(s: System, t: int, k: nat, cfg: Config)
    requires s.checked == Below(k) && s.now <= t
    ensures Exec(s, Records(t, k), cfg).Some? && Exec(s, Records(t, k), cfg).value.failures == s.failures + Repeat(t, k)
    decreases k
  {
    if k == 0 {
      assert s.failures + [] == s.failures;
    } else {
      var u := Apply(s, Record(k - 1, t), cfg);
      assert u.checked == Below(k - 1);
      RecordsRun(u, t, k - 1, cfg);
      ExecStep(s, Record(k - 1, t), Records(t, k - 1), cfg);
      RepeatShift(s.failures, t, k);
    }
  }

  lemma ExecStep(s: System, a: Action, rest: seq<Action>, cfg: Config)
    requires Enabled(s, a)
    ensures Exec(s, [a] + rest, cfg) == Exec(Apply(s, a, cfg), rest, cfg)
  {
    assert ([a] + rest)[1..] == rest;
  }

  lemma {:induction false} RepeatShift(ts: seq<int>, t: int, k: nat)
    requires k > 0
    ensures ts + [t] + Repeat(t, k - 1) == ts + Repeat(t, k)
  {
    if k == 1 {
      assert ts + [t] + [] == ts + ([] + [t]);
    } else {
      RepeatShift(ts, t, k - 1);
      assert ts + Repeat(t, k) == ts + Repeat(t, k - 1) + [t];
    }
  }

  /** If every request of a run has a number below k, no more than k are ever in flight. */
  lemma {:induction false} NumbersBoundFlight(s: System, acts: seq<Action>, k: nat, cfg: Config)
    requires s.checked <= Below(k) && forall i | 0 <= i < |acts| && acts[i].Check? :: acts[i].r < k
    ensures AtMostInFlight(s, acts, k, cfg)
    decreases |acts|
  {
    SubsetCard(s.checked, Below(k));
    if acts == [] {
    } else if Enabled(s, acts[0]) {
      NumbersBoundFlight(Apply(s, acts[0], cfg), acts[1..], k, cfg);
    }
  }

  ghost predicate Numbered(acts: seq<Action>, k: nat) {
    forall i | 0 <= i < |acts| && acts[i].Check? :: acts[i].r < k
  }

  lemma {:induction false} TriesNumbered(t: int, n: nat, k: nat)
    requires k >= 1
    ensures Numbered(Tries(t, n), k)
  {
    if n == 0 {
    } else {
      TriesNumbered(t, n - 1, k);
    }
  }

  lemma {:induction false} ChecksNumbered(t: int, n: nat, k: nat)
    requires n <= k
    ensures Numbered(Checks(t, n), k) && Numbered(Records(t, n), k)
  {
    if n == 0 {
    } else {
      ChecksNumbered(t, n - 1, k);
    }
  }

  /** The failures of the worst run after its first, second and third instant, and at its end. */
  function First(cfg: Config): seq<int>
    requires cfg.maxAttempts >= 1
  {
    [] + Repeat(1, cfg.maxAttempts)
  }

  function Second(cfg: Config): seq<int>
    requires cfg.maxAttempts >= 1
  {
    First(cfg) + Repeat(1 + cfg.lockout, cfg.maxAttempts - 1)
  }

  function Third(cfg: Config): seq<int>
    requires cfg.maxAttempts >= 1
  {
    Second(cfg) + Repeat(2 + cfg.lockout, cfg.maxAttempts - 1)
  }

  lemma FirstLocks(cfg: Config)
    requires cfg.maxAttempts >= 1 && cfg.lockout > 1
    ensures Leads(First(cfg), cfg, AttemptState(0, 1 + cfg.lockout, 1 + cfg.lockout), 1)
  {
    LockAtOnce([], cfg, ZERO, 1);
  }

  lemma SecondFillsTheOldWindow(cfg: Config)
    requires cfg.maxAttempts >= 1 && cfg.lockout > 1
    ensures var end := 1 + cfg.lockout;
      Leads(Second(cfg), cfg, AttemptState(cfg.maxAttempts - 1, end, end), end)
  {
    var end := 1 + cfg.lockout;
    FirstLocks(cfg);
    Burst(First(cfg), cfg, AttemptState(0, end, end), end, cfg.maxAttempts - 1);
  }

  lemma ThirdFillsANewWindow(cfg: Config)
    requires cfg.maxAttempts >= 1 && cfg.lockout > 1
    ensures EachChecked(Third(cfg), cfg) && AfterFailures(Third(cfg), cfg).lockedTil == 1 + cfg.lockout
  {
    var m, end := cfg.maxAttempts, 1 + cfg.lockout;
    SecondFillsTheOldWindow(cfg);
    if m == 1 {
      assert Third(cfg) == Second(cfg);
    } else {
      FreshBurst(Second(cfg), cfg, AttemptState(m - 1, end, end), end + 1, m - 1);
    }
  }

  lemma WorstCount(cfg: Config, k: nat)
    requires cfg.maxAttempts >= 1 && cfg.lockout > 1
    ensures CountIn(Third(cfg) + Repeat(2 + cfg.lockout, k), 1 + cfg.lockout, 1 + cfg.lockout + cfg.lockout)
      == 2 * cfg.maxAttempts + k - 2
  {
    var m, end := cfg.maxAttempts, 1 + cfg.lockout;
    var b := end + cfg.lockout;
    CountRepeat([], 1, m, end, b);
    CountRepeat(First(cfg), end, m - 1, end, b);
    CountRepeat(Second(cfg), end + 1, m - 1, end, b);
    CountRepeat(Third(cfg), end + 1, k, end, b);
  }

  /** Runs the requests of one instant and hands on what is left to run. */
  lemma AfterTries(s: System, ts: seq<int>, t: int, n: nat, rest: seq<Action>, cfg: Config) returns (u: System)
    requires Reached(s, ts, cfg, t) && EachChecked(ts + Repeat(t, n), cfg)
    ensures Exec(s, Tries(t, n) + rest, cfg) == Exec(u, rest, cfg) && Reached(u, ts + Repeat(t, n), cfg, t)
  {
    TriesRun(s, ts, t, n, cfg);
    ExecConcat(s, Tries(t, n), rest, cfg);
    u := Exec(s, Tries(t, n), cfg).value;
  }

  lemma OverlapRuns(s: System, ts: seq<int>, t: int, k: nat, cfg: Config)
    requires Reached(s, ts, cfg, t) && !Locked(AfterFailures(ts, cfg), t)
    ensures var r := Exec(s, Checks(t, k) + Records(t, k), cfg);
      r.Some? && r.value.failures == ts + Repeat(t, k)
  {
    ChecksRun(s, t, k, cfg);
    ExecConcat(s, Checks(t, k), Records(t, k), cfg);
    RecordsRun(Exec(s, Checks(t, k), cfg).value, t, k, cfg);
  }

  ghost predicate EndsWith(r: Option<System>, ts: seq<int>) {
    r.Some? && r.value.failures == ts
  }

  lemma ThirdInstant(s: System, cfg: Config, k: nat)
    requires cfg.maxAttempts >= 1 && cfg.lockout > 1 && Reached(s, Second(cfg), cfg, 2 + cfg.lockout)
    ensures var t := 2 + cfg.lockout;
      EndsWith(Exec(s, Tries(t, cfg.maxAttempts - 1) + (Checks(t, k) + Records(t, k)), cfg), Third(cfg) + Repeat(t, k))
  {
    var t := 2 + cfg.lockout;
    ThirdFillsANewWindow(cfg);
    var u := AfterTries(s, Second(cfg), t, cfg.maxAttempts - 1, Checks(t, k) + Records(t, k), cfg);
    OverlapRuns(u, Third(cfg), t, k, cfg);
  }

  lemma SecondInstant(s: System, cfg: Config, rest: seq<Action>) returns (u: System)
    requires cfg.maxAttempts >= 1 && cfg.lockout > 1 && Reached(s, First(cfg), cfg, 1 + cfg.lockout)
    ensures Exec(s, Tries(1 + cfg.lockout, cfg.maxAttempts - 1) + rest, cfg) == Exec(u, rest, cfg)
    ensures Reached(u, Second(cfg), cfg, 2 + cfg.lockout)
  {
    SecondFillsTheOldWindow(cfg);
    u := AfterTries(s, First(cfg), 1 + cfg.lockout, cfg.maxAttempts - 1, rest, cfg);
  }

  lemma FirstInstant(cfg: Config, rest: seq<Action>) returns (u: System)
    requires cfg.maxAttempts >= 1 && cfg.lockout > 1
    ensures Exec(Start(1), Tries(1, cfg.maxAttempts) + rest, cfg) == Exec(u, rest, cfg)
    ensures Reached(u, First(cfg), cfg, 1 + cfg.lockout)
  {
    FirstLocks(cfg);
    u := AfterTries(Start(1), [], 1, cfg.maxAttempts, rest, cfg);
  }

  lemma WorstRunsThrough(cfg: Config, k: nat)
    requires cfg.maxAttempts >= 1 && cfg.lockout > 1
    ensures EndsWith(Exec(Start(1), WorstRun(cfg, k), cfg), Third(cfg) + Repeat(2 + cfg.lockout, k))
  {
    var m, end := cfg.maxAttempts, 1 + cfg.lockout;
    var last := Tries(end + 1, m - 1) + (Checks(end + 1, k) + Records(end + 1, k));
    var s1 := FirstInstant(cfg, Tries(end, m - 1) + last);
    var s2 := SecondInstant(s1, cfg, last);
    ThirdInstant(s2, cfg, k);
  }

  lemma NumberedConcat(xs: seq<Action>, ys: seq<Action>, k: nat)
    requires Numbered(xs, k) && Numbered(ys, k)
    ensures Numbered(xs + ys, k)
  {
  }

  lemma WorstRunNumbered(cfg: Config, k: nat)
    requires cfg.maxAttempts >= 1 && k >= 1
    ensures Numbered(WorstRun(cfg, k), k)
  {
    var m, end := cfg.maxAttempts, 1 + cfg.lockout;
    TriesNumbered(1, m, k);
    TriesNumbered(end, m - 1, k);
    TriesNumbered(end + 1, m - 1, k);
    ChecksNumbered(end + 1, k, k);
    NumberedConcat(Checks(end + 1, k), Records(end + 1, k), k);
    NumberedConcat(Tries(end + 1, m - 1), Checks(end + 1, k) + Records(end + 1, k), k);
    NumberedConcat(Tries(end, m - 1), Tries(end + 1, m - 1) + (Checks(end + 1, k) + Records(end + 1, k)), k);
    NumberedConcat(Tries(1, m), Tries(end, m - 1) + (Tries(end + 1, m - 1) + (Checks(end + 1, k) + Records(end + 1, k))), k);
  }

  /**
   * The bound is exact: for every maxAttempts and every k a run with at most k requests in flight puts
   * that many failures in one interval.
   */
  lemma BoundIsAttained(cfg: Config, k: nat)
    requires cfg.maxAttempts >= 1 && cfg.lockout > 1 && k >= 1
    ensures AtMostInFlight(Start(1), WorstRun(cfg, k), k, cfg) && Exec(Start(1), WorstRun(cfg, k), cfg).Some?
    ensures CountIn(Exec(Start(1), WorstRun(cfg, k), cfg).value.failures, 1 + cfg.lockout, 1 + cfg.lockout + cfg.lockout)
      == 2 * cfg.maxAttempts + k - 2
  {
    WorstRunsThrough(cfg, k);
    WorstCount(cfg, k);
    WorstRunNumbered(cfg, k);
    NumbersBoundFlight(Start(1), WorstRun(cfg, k), k, cfg);
  }
}
