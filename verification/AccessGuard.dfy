/**
 * The in-memory guard of the recipient endpoints: a lockout after repeated password failures, and a
 * fixed window for download URLs. Time 0 is the zero time of a state never written; clocks are later.
 */
module AccessGuard {
  import opened Common

  datatype AttemptState = AttemptState(failures: int, lockedTil: int, windowTil: int)

  datatype SlidingState = SlidingState(count: int, windowTil: int)

  datatype Config = Config(maxAttempts: int, lockout: int, downloadLimit: int, downloadWindow: int)

  const ZERO := AttemptState(0, 0, 0)

  predicate Locked(st: AttemptState, now: int) {
    now < st.lockedTil
  }

  /** One recorded failure. The window is renewed strictly after its end, the lock is over at its end. */
  function Fail(st: AttemptState, now: int, cfg: Config): AttemptState {
    var window := if now > st.windowTil then AttemptState(0, st.lockedTil, now + cfg.lockout) else st;
    if window.failures + 1 >= cfg.maxAttempts
    then AttemptState(0, now + cfg.lockout, now + cfg.lockout)
    else window.(failures := window.failures + 1)
  }

  function Download(st: SlidingState, now: int, cfg: Config): (bool, SlidingState) {
    if now > st.windowTil then (true, SlidingState(1, now + cfg.downloadWindow))
    else if st.count >= cfg.downloadLimit then (false, st)
    else (true, st.(count := st.count + 1))
  }

  /**
   * One failure more, counted from one again after the window; at the threshold the token is locked for the
   * lockout length, and the count starts again with the lock's end.
   */
  ghost predicate FailedAs(st: AttemptState, after: AttemptState, now: int, cfg: Config) {
    var failures := if now > st.windowTil then 1 else st.failures + 1;
    && (failures >= cfg.maxAttempts ==>
          after.failures == 0 && after.lockedTil == now + cfg.lockout && after.windowTil == now + cfg.lockout)
    && (failures < cfg.maxAttempts ==>
          && after.failures == failures && after.lockedTil == st.lockedTil
          && after.windowTil == (if now > st.windowTil then now + cfg.lockout else st.windowTil))
  }

  /** Allowed exactly when the window is over or still has a download left; a refusal changes nothing. */
  ghost predicate ServedAs(st: SlidingState, after: SlidingState, now: int, cfg: Config, ok: bool) {
    && (ok <==> now > st.windowTil || st.count < cfg.downloadLimit)
    && (now > st.windowTil ==> after.count == 1 && after.windowTil == now + cfg.downloadWindow)
    && (now <= st.windowTil && ok ==> after.count == st.count + 1 && after.windowTil == st.windowTil)
    && (!ok ==> after == st)
  }

  function Lookup<V>(m: map<string, V>, k: string, zero: V): V {
    if k in m then m[k] else zero
  }

  /** What a verify request found out once it was let through the guard. */
  datatype Finding = NoAccess | NoPasswordNeeded | WrongPassword | RightPassword

  class Guard {
    var verify: map<string, AttemptState>
    var dl: map<string, SlidingState>
    const cfg: Config

    constructor (cfg: Config)
      ensures verify == map[] && dl == map[] && this.cfg == cfg
    {
      verify, dl, this.cfg := map[], map[], cfg;
    }

    method VerifyAllowed(token: string, now: int) returns (ok: bool)
      ensures ok <==> now >= if token in verify then verify[token].lockedTil else 0
      ensures ok <==> !Locked(Lookup(verify, token, ZERO), now)
    {
      var st := if token in verify then verify[token] else ZERO;
      if now < st.lockedTil { return false; }
      return true;
    }

    method RegisterVerifyFailure(token: string, now: int)
      modifies this`verify
      ensures verify.Keys == old(verify).Keys + {token} && forall k | k in old(verify) && k != token :: verify[k] == old(verify)[k]
      ensures FailedAs(if token in old(verify) then old(verify)[token] else AttemptState(0, 0, 0), verify[token], now, cfg)
      ensures verify == old(verify)[token := Fail(Lookup(old(verify), token, ZERO), now, cfg)]
    {
      var st := if token in verify then verify[token] else ZERO;
      if now > st.windowTil {
        st := st.(failures := 0, windowTil := now + cfg.lockout);
      }
      st := st.(failures := st.failures + 1);
      if st.failures >= cfg.maxAttempts {
        st := st.(lockedTil := now + cfg.lockout, failures := 0);
        st := st.(windowTil := st.lockedTil);
      }
      verify := verify[token := st];
    }

    method ResetVerify(token: string)
      modifies this`verify
      ensures verify == old(verify) - {token}
    {
      verify := verify - {token};
    }

    method AllowDownload(key: string, now: int) returns (ok: bool)
      modifies this`dl
      ensures ServedAs(if key in old(dl) then old(dl)[key] else SlidingState(0, 0),
                       if key in dl then dl[key] else SlidingState(0, 0), now, cfg, ok)
      ensures var (allowed, st) := Download(Lookup(old(dl), key, SlidingState(0, 0)), now, cfg);
        ok == allowed && Lookup(dl, key, SlidingState(0, 0)) == st
      ensures forall k | k != key :: k in dl <==> k in old(dl)
      ensures forall k | k != key && k in dl :: dl[k] == old(dl)[k]
    {
      var st := if key in dl then dl[key] else SlidingState(0, 0);
      if now > st.windowTil {
        dl := dl[key := SlidingState(1, now + cfg.downloadWindow)];
        return true;
      }
      if st.count >= cfg.downloadLimit { return false; }
      st := st.(count := st.count + 1);
      dl := dl[key := st];
      return true;
    }

    /** The guard's part in one verify request: checked first, then recorded or reset. */
    method VerifyAccess(token: string, checkedAt: int, recordedAt: int, finding: Finding) returns (granted: bool)
      modifies this`verify
      ensures var st := if token in old(verify) then old(verify)[token] else AttemptState(0, 0, 0);
        && (granted <==> finding in {NoPasswordNeeded, RightPassword} && st.lockedTil <= checkedAt)
        && (checkedAt < st.lockedTil || finding in {NoAccess, NoPasswordNeeded} ==> verify == old(verify))
        && (st.lockedTil <= checkedAt && finding == RightPassword ==> verify == old(verify) - {token})
        && (st.lockedTil <= checkedAt && finding == WrongPassword ==>
              token in verify && FailedAs(st, verify[token], recordedAt, cfg))
      ensures Lookup(verify, token, ZERO)
           == AfterAttempt(Lookup(old(verify), token, ZERO), Attempt(checkedAt, recordedAt, finding), cfg)
      ensures granted <==>
        finding in {NoPasswordNeeded, RightPassword} && !Locked(Lookup(old(verify), token, ZERO), checkedAt)
      ensures forall k | k != token :: Lookup(verify, k, ZERO) == Lookup(old(verify), k, ZERO)
    {
      var allowed := VerifyAllowed(token, checkedAt);
      if !allowed { return false; }
      match finding {
        case NoAccess => return false;
        case NoPasswordNeeded => return true;
        case WrongPassword =>
          RegisterVerifyFailure(token, recordedAt);
          return false;
        case RightPassword =>
          ResetVerify(token);
          return true;
      }
    }
  }

  datatype Attempt = Attempt(checkedAt: int, recordedAt: int, finding: Finding)

  function AfterAttempt(st: AttemptState, a: Attempt, cfg: Config): AttemptState {
    if Locked(st, a.checkedAt) then st
    else
      match a.finding
      case WrongPassword => Fail(st, a.recordedAt, cfg)
      case RightPassword => ZERO
      case _ => st
  }

  // ----- Failures of one token since its last reset -----

  function AfterFailures(ts: seq<int>, cfg: Config): AttemptState {
    if ts == [] then ZERO else Fail(AfterFailures(ts[..|ts| - 1], cfg), ts[|ts| - 1], cfg)
  }

  /** Times never decrease, and no failure is recorded while the token is locked. */
  ghost predicate EachChecked(ts: seq<int>, cfg: Config) {
    ts == [] ||
    (var n := |ts| - 1;
     && EachChecked(ts[..n], cfg)
     && 0 < ts[n] && (n > 0 ==> ts[n - 1] <= ts[n])
     && !Locked(AfterFailures(ts[..n], cfg), ts[n]))
  }

  function CountSince(ts: seq<int>, a: int): nat {
    if ts == [] then 0 else CountSince(ts[..|ts| - 1], a) + (if ts[|ts| - 1] >= a then 1 else 0)
  }

  function CountIn(ts: seq<int>, a: int, b: int): nat {
    if ts == [] then 0 else CountIn(ts[..|ts| - 1], a, b) + (if a <= ts[|ts| - 1] < b then 1 else 0)
  }

  lemma {:induction false} CountInIsSince(ts: seq<int>, a: int, b: int)
    requires forall i | 0 <= i < |ts| :: ts[i] < b
    ensures CountIn(ts, a, b) == CountSince(ts, a)
  {
    if ts == [] {
    } else {
      CountInIsSince(ts[..|ts| - 1], a, b);
    }
  }

  lemma {:induction false} NothingSince(ts: seq<int>, a: int)
    requires forall i | 0 <= i < |ts| :: ts[i] < a
    ensures CountSince(ts, a) == 0
  {
    if ts == [] {
    } else {
      NothingSince(ts[..|ts| - 1], a);
    }
  }

  predicate Ordered(ts: seq<int>) {
    forall i, j | 0 <= i <= j < |ts| :: ts[i] <= ts[j]
  }

  lemma {:induction false} CheckedIsOrdered(ts: seq<int>, cfg: Config)
    requires EachChecked(ts, cfg)
    ensures Ordered(ts)
  {
    if ts == [] {
    } else {
      var n := |ts| - 1;
      CheckedIsOrdered(ts[..n], cfg);
      forall i, j | 0 <= i <= j < |ts| ensures ts[i] <= ts[j] {
        if j == n && i < n { assert ts[..n][i] <= ts[..n][n - 1]; }
        if j < n { assert ts[..n][i] <= ts[..n][j]; }
      }
    }
  }

  /**
   * What the state remembers: nothing later than the window, at most `failures` in the lockout length
   * before the window's end, and at most maxAttempts - 1 more in the lockout length before that, as far
   * as a failure that is still to come can reach back.
   */
  ghost predicate LockoutInv(ts: seq<int>, st: AttemptState, cfg: Config) {
    && 0 <= st.failures < cfg.maxAttempts
    && st.lockedTil <= st.windowTil
    && (ts == [] ==> st == ZERO)
    && (ts != [] ==> ts[|ts| - 1] >= st.windowTil - cfg.lockout)
    && (forall a | a > st.windowTil :: CountSince(ts, a) == 0)
    && (forall a | a > st.windowTil - cfg.lockout :: CountSince(ts, a) <= st.failures)
    && (forall a | a > Max(st.lockedTil, st.windowTil - cfg.lockout) - cfg.lockout ::
          CountSince(ts, a) <= st.failures + cfg.maxAttempts - 1)
  }

  lemma FailKeepsInv(ts: seq<int>, st: AttemptState, t: int, cfg: Config)
    requires cfg.maxAttempts >= 1 && cfg.lockout > 0
    requires LockoutInv(ts, st, cfg) && Ordered(ts) && 0 < t && (ts != [] ==> ts[|ts| - 1] <= t) && !Locked(st, t)
    ensures LockoutInv(ts + [t], Fail(st, t, cfg), cfg)
    ensures forall a | a > t - cfg.lockout :: CountSince(ts + [t], a) <= 2 * cfg.maxAttempts - 1
  {
    OneMoreSince(ts, t);
    if ts == [] {
      forall a ensures CountSince(ts, a) == 0 { }
    } else if t > st.windowTil {
      RenewedWindow(ts, st, t, cfg);
    }
  }

  lemma OneMoreSince(ts: seq<int>, t: int)
    requires Ordered(ts) && (ts != [] ==> ts[|ts| - 1] <= t)
    ensures forall a :: CountSince(ts + [t], a) == CountSince(ts, a) + (if t >= a then 1 else 0)
    ensures forall a | a > t :: CountSince(ts, a) == 0
  {
    assert (ts + [t])[..|ts|] == ts;
    forall a | a > t ensures CountSince(ts, a) == 0 {
      NothingSince(ts, a);
    }
  }

  /** What reaches back from a failure after the end of the window. */
  lemma RenewedWindow(ts: seq<int>, st: AttemptState, t: int, cfg: Config)
    requires cfg.maxAttempts >= 1 && cfg.lockout > 0 && LockoutInv(ts, st, cfg) && t > st.windowTil
    ensures forall a | a >= t :: CountSince(ts, a) == 0
    ensures forall a | a > t - cfg.lockout :: CountSince(ts, a) <= st.failures
  {
  }

  lemma {:induction false} LockoutHolds(ts: seq<int>, cfg: Config)
    requires cfg.maxAttempts >= 1 && cfg.lockout > 0 && EachChecked(ts, cfg)
    ensures LockoutInv(ts, AfterFailures(ts, cfg), cfg)
  {
    if ts == [] {
    } else {
      var n := |ts| - 1;
      LockoutHolds(ts[..n], cfg);
      CheckedIsOrdered(ts[..n], cfg);
      FailKeepsInv(ts[..n], AfterFailures(ts[..n], cfg), ts[n], cfg);
      assert ts == ts[..n] + [ts[n]];
    }
  }

  /** The bound for an interval that holds the last failure. */
  lemma LastFailureInside(ts: seq<int>, cfg: Config, a: int)
    requires cfg.maxAttempts >= 1 && cfg.lockout > 0 && EachChecked(ts, cfg)
    requires ts != [] && a <= ts[|ts| - 1] < a + cfg.lockout
    ensures CountIn(ts, a, a + cfg.lockout) <= 2 * cfg.maxAttempts - 1
  {
    var n := |ts| - 1;
    LockoutHolds(ts[..n], cfg);
    CheckedIsOrdered(ts[..n], cfg);
    FailKeepsInv(ts[..n], AfterFailures(ts[..n], cfg), ts[n], cfg);
    assert ts == ts[..n] + [ts[n]];
    CheckedIsOrdered(ts, cfg);
    CountInIsSince(ts, a, a + cfg.lockout);
  }

  /**
   * Between two resets, any half-open interval of one lockout length holds at most
   * 2 * maxAttempts - 1 failures, even when one comes at the very instant a lock ends; and the stored
   * count never reaches maxAttempts.
   */
  lemma {:induction false} FailuresAreBounded(ts: seq<int>, cfg: Config, a: int)
    requires cfg.maxAttempts >= 1 && cfg.lockout > 0 && EachChecked(ts, cfg)
    ensures CountIn(ts, a, a + cfg.lockout) <= 2 * cfg.maxAttempts - 1
    ensures 0 <= AfterFailures(ts, cfg).failures < cfg.maxAttempts
  {
    LockoutHolds(ts, cfg);
    if ts == [] {
    } else {
      FailuresAreBounded(ts[..|ts| - 1], cfg, a);
      if a <= ts[|ts| - 1] < a + cfg.lockout {
        LastFailureInside(ts, cfg, a);
      }
    }
  }

  // ----- The bound is attained -----

  function Repeat(t: int, m: nat): seq<int> {
    if m == 0 then [] else Repeat(t, m - 1) + [t]
  }

  /** A checked history that ends by `now` and leads to `st`. */
  ghost predicate Leads(ts: seq<int>, cfg: Config, st: AttemptState, now: int) {
    EachChecked(ts, cfg) && AfterFailures(ts, cfg) == st && (ts != [] ==> ts[|ts| - 1] <= now)
  }

  lemma OneMoreFailure(ts: seq<int>, cfg: Config, st: AttemptState, t: int)
    requires Leads(ts, cfg, st, t) && 0 < t && !Locked(st, t)
    ensures Leads(ts + [t], cfg, Fail(st, t, cfg), t)
  {
    assert (ts + [t])[..|ts|] == ts;
  }

  /** m failures at one instant inside a window, all below the threshold. */
  lemma {:induction false} Burst(ts: seq<int>, cfg: Config, st: AttemptState, t: int, m: nat)
    requires Leads(ts, cfg, st, t) && 0 < t
    requires st.lockedTil <= t <= st.windowTil && st.failures + m < cfg.maxAttempts
    ensures Leads(ts + Repeat(t, m), cfg, st.(failures := st.failures + m), t)
  {
    if m == 0 {
      assert ts + [] == ts;
    } else {
      Burst(ts, cfg, st, t, m - 1);
      OneMoreFailure(ts + Repeat(t, m - 1), cfg, st.(failures := st.failures + m - 1), t);
      assert ts + Repeat(t, m) == ts + Repeat(t, m - 1) + [t];
    }
  }

  /** A fresh window opened by the first of m failures at one instant. */
  lemma {:induction false} FreshBurst(ts: seq<int>, cfg: Config, st: AttemptState, t: int, m: nat)
    requires Leads(ts, cfg, st, t) && 0 < t
    requires st.lockedTil <= t && st.windowTil < t && 1 <= m < cfg.maxAttempts && cfg.lockout > 0
    ensures Leads(ts + Repeat(t, m), cfg, AttemptState(m, st.lockedTil, t + cfg.lockout), t)
  {
    RepeatLast(ts, t, m);
    if m == 1 {
      OneMoreFailure(ts, cfg, st, t);
    } else {
      FreshBurst(ts, cfg, st, t, m - 1);
      OneMoreFailure(ts + Repeat(t, m - 1), cfg, AttemptState(m - 1, st.lockedTil, t + cfg.lockout), t);
    }
  }

  lemma RepeatLast(ts: seq<int>, t: int, m: nat)
    requires m >= 1
    ensures ts + Repeat(t, m) == ts + Repeat(t, m - 1) + [t]
    ensures m == 1 ==> ts + Repeat(t, m) == ts + [t]
  {
    assert ts + Repeat(t, 0) == ts;
  }

  /** A fresh window filled at one instant ends in a lock. */
  lemma LockAtOnce(ts: seq<int>, cfg: Config, st: AttemptState, t: int)
    requires Leads(ts, cfg, st, t) && 0 < t
    requires st.lockedTil <= t && st.windowTil < t && cfg.maxAttempts >= 1 && cfg.lockout > 0
    ensures Leads(ts + Repeat(t, cfg.maxAttempts), cfg, AttemptState(0, t + cfg.lockout, t + cfg.lockout), t)
  {
    var m := cfg.maxAttempts;
    RepeatLast(ts, t, m);
    if m == 1 {
      OneMoreFailure(ts, cfg, st, t);
    } else {
      FreshBurst(ts, cfg, st, t, m - 1);
      OneMoreFailure(ts + Repeat(t, m - 1), cfg, AttemptState(m - 1, st.lockedTil, t + cfg.lockout), t);
    }
  }

  lemma {:induction false} CountRepeat(ts: seq<int>, t: int, m: nat, a: int, b: int)
    ensures CountIn(ts + Repeat(t, m), a, b) == CountIn(ts, a, b) + if a <= t < b then m else 0
  {
    if m == 0 {
      assert ts + [] == ts;
    } else {
      CountRepeat(ts, t, m - 1, a, b);
      var longer := ts + Repeat(t, m);
      assert longer[..|longer| - 1] == ts + Repeat(t, m - 1);
    }
  }

  /** A lock, then maxAttempts - 1 failures at the instant it ends, then maxAttempts one tick later. */
  function WorstCase(cfg: Config): seq<int>
    requires cfg.maxAttempts >= 1
  {
    var m, end := cfg.maxAttempts, 1 + cfg.lockout;
    [] + Repeat(1, m) + Repeat(end, m - 1) + Repeat(end + 1, m)
  }

  lemma BoundIsTight(cfg: Config)
    requires cfg.maxAttempts >= 1 && cfg.lockout > 1
    ensures EachChecked(WorstCase(cfg), cfg)
    ensures CountIn(WorstCase(cfg), 1 + cfg.lockout, 1 + cfg.lockout + cfg.lockout) == 2 * cfg.maxAttempts - 1
  {
    var m, end := cfg.maxAttempts, 1 + cfg.lockout;
    var b := end + cfg.lockout;
    var locked := AttemptState(0, end, end);
    var ts1 := [] + Repeat(1, m);
    var ts2 := ts1 + Repeat(end, m - 1);
    LockAtOnce([], cfg, ZERO, 1);
    Burst(ts1, cfg, locked, end, m - 1);
    LockAtOnce(ts2, cfg, locked.(failures := m - 1), end + 1);
    CountRepeat([], 1, m, end, b);
    CountRepeat(ts1, end, m - 1, end, b);
    CountRepeat(ts2, end + 1, m, end, b);
  }

  // ----- Download URLs -----

  /** The calls of one key that were allowed, and the state they leave. */
  function Served(calls: seq<int>, cfg: Config): (seq<int>, SlidingState) {
    if calls == [] then ([], SlidingState(0, 0))
    else
      var (before, st) := Served(calls[..|calls| - 1], cfg);
      var (ok, after) := Download(st, calls[|calls| - 1], cfg);
      (if ok then before + [calls[|calls| - 1]] else before, after)
  }

  ghost predicate WindowInv(ts: seq<int>, st: SlidingState, cfg: Config) {
    if ts == [] then st == SlidingState(0, 0)
    else
      && 1 <= st.count <= Max(cfg.downloadLimit, 1)
      && ts[|ts| - 1] >= st.windowTil - cfg.downloadWindow
      && (forall a | a > st.windowTil :: CountSince(ts, a) == 0)
      && (forall a | a > st.windowTil - cfg.downloadWindow :: CountSince(ts, a) < st.count)
      && (forall a | a > st.windowTil - 2 * cfg.downloadWindow :: CountSince(ts, a) < st.count + Max(cfg.downloadLimit, 1))
  }

  lemma ServeKeepsInv(ts: seq<int>, st: SlidingState, t: int, cfg: Config)
    requires cfg.downloadWindow > 0 && WindowInv(ts, st, cfg) && Ordered(ts) && 0 < t && (ts != [] ==> ts[|ts| - 1] <= t)
    requires Download(st, t, cfg).0
    ensures WindowInv(ts + [t], Download(st, t, cfg).1, cfg)
    ensures forall a | a > t - cfg.downloadWindow :: CountSince(ts + [t], a) <= 2 * Max(cfg.downloadLimit, 1) - 1
  {
    assert (ts + [t])[..|ts|] == ts;
    assert forall a :: CountSince(ts + [t], a) == CountSince(ts, a) + (if t >= a then 1 else 0);
    forall a | a > t ensures CountSince(ts, a) == 0 {
      NothingSince(ts, a);
    }
  }

  /** An interval that holds the last call counts every call since its start. */
  lemma ServedWithin(ts: seq<int>, t: int, a: int, b: int)
    requires Ordered(ts + [t])
    ensures CountIn(ts + [t], a, b) == if a <= t < b then CountSince(ts + [t], a) else CountIn(ts, a, b)
  {
    assert (ts + [t])[..|ts|] == ts;
    if a <= t < b {
      assert forall i | 0 <= i < |ts + [t]| :: (ts + [t])[i] <= (ts + [t])[|ts|];
      CountInIsSince(ts + [t], a, b);
    }
  }

  lemma ServedNext(calls: seq<int>, cfg: Config, ts: seq<int>, st: SlidingState, t: int)
    requires Served(calls, cfg) == (ts, st) && t <= st.windowTil && st.count < cfg.downloadLimit
    ensures Served(calls + [t], cfg) == (ts + [t], SlidingState(st.count + 1, st.windowTil))
  {
    assert (calls + [t])[..|calls|] == calls;
  }

  lemma {:induction false} ServedRun(calls: seq<int>, cfg: Config, ts: seq<int>, st: SlidingState, t: int, m: nat)
    requires Served(calls, cfg) == (ts, st) && t <= st.windowTil && st.count + m <= cfg.downloadLimit
    ensures Served(calls + Repeat(t, m), cfg) == (ts + Repeat(t, m), SlidingState(st.count + m, st.windowTil))
  {
    hide Served;
    if m == 0 {
      assert calls + [] == calls && ts + [] == ts;
    } else {
      ServedRun(calls, cfg, ts, st, t, m - 1);
      RepeatLast(calls, t, m);
      RepeatLast(ts, t, m);
      ServedNext(calls + Repeat(t, m - 1), cfg, ts + Repeat(t, m - 1), SlidingState(st.count + m - 1, st.windowTil), t);
    }
  }

  /** The first call after a window is allowed and opens the next. */
  lemma ServedFirst(calls: seq<int>, cfg: Config, ts: seq<int>, st: SlidingState, t: int)
    requires Served(calls, cfg) == (ts, st) && t > st.windowTil
    ensures Served(calls + [t], cfg) == (ts + [t], SlidingState(1, t + cfg.downloadWindow))
  {
    assert (calls + [t])[..|calls|] == calls;
  }

  /** One call opens a window, the rest come at its end, and a whole window's worth one instant later. */
  function FullWindows(cfg: Config): seq<int>
    requires cfg.downloadLimit >= 1
  {
    var end := 1 + cfg.downloadWindow;
    [1] + Repeat(end, cfg.downloadLimit - 1) + [end + 1] + Repeat(end + 1, cfg.downloadLimit - 1)
  }

  lemma FullWindowsServed(cfg: Config)
    requires cfg.downloadLimit >= 1 && cfg.downloadWindow > 1
    ensures Served(FullWindows(cfg), cfg).0 == FullWindows(cfg)
  {
    var n, end := cfg.downloadLimit - 1, 1 + cfg.downloadWindow;
    var first := [1] + Repeat(end, n);
    var second := first + [end + 1];
    NothingServed(cfg);
    hide Served;
    ServedFirst([], cfg, [], SlidingState(0, 0), 1);
    assert [] + [1] == [1];
    ServedRun([1], cfg, [1], SlidingState(1, end), end, n);
    ServedFirst(first, cfg, first, SlidingState(n + 1, end), end + 1);
    ServedRun(second, cfg, second, SlidingState(1, end + 1 + cfg.downloadWindow), end + 1, n);
  }

  lemma NothingServed(cfg: Config)
    ensures Served([], cfg) == ([], SlidingState(0, 0))
  {
  }

  lemma CountOneMore(ts: seq<int>, t: int, a: int, b: int)
    ensures CountIn(ts + [t], a, b) == CountIn(ts, a, b) + if a <= t < b then 1 else 0
  {
    assert (ts + [t])[..|ts|] == ts;
  }

  /** The bound is attained: all these calls are allowed, and all but the first lie within one window length. */
  lemma DownloadBoundIsTight(cfg: Config)
    requires cfg.downloadLimit >= 1 && cfg.downloadWindow > 1
    ensures Served(FullWindows(cfg), cfg).0 == FullWindows(cfg)
    ensures var end := 1 + cfg.downloadWindow;
      CountIn(FullWindows(cfg), end, end + cfg.downloadWindow) == 2 * cfg.downloadLimit - 1
  {
    hide Served;
    FullWindowsServed(cfg);
    var n, end := cfg.downloadLimit - 1, 1 + cfg.downloadWindow;
    var first := [1] + Repeat(end, n);
    assert [] + [1] == [1];
    CountOneMore([], 1, end, end + cfg.downloadWindow);
    CountRepeat([1], end, n, end, end + cfg.downloadWindow);
    CountOneMore(first, end + 1, end, end + cfg.downloadWindow);
    CountRepeat(first + [end + 1], end + 1, n, end, end + cfg.downloadWindow);
  }

  /**
   * On any nondecreasing clock, any half-open interval of one window length holds at most
   * 2 * limit - 1 allowed downloads of a key, where a limit below one still lets one through.
   */
  lemma {:induction false} DownloadsAreBounded(calls: seq<int>, cfg: Config, a: int)
    requires cfg.downloadWindow > 0 && Ordered(calls) && (forall i | 0 <= i < |calls| :: 0 < calls[i])
    ensures var (ts, st) := Served(calls, cfg);
      && WindowInv(ts, st, cfg) && Ordered(ts)
      && (ts != [] ==> calls != [] && ts[|ts| - 1] <= calls[|calls| - 1])
      && CountIn(ts, a, a + cfg.downloadWindow) <= 2 * Max(cfg.downloadLimit, 1) - 1
  {
    if calls == [] {
    } else {
      var n := |calls| - 1;
      DownloadsAreBounded(calls[..n], cfg, a);
      var (ts, st) := Served(calls[..n], cfg);
      var t := calls[n];
      if n > 0 { assert calls[n - 1] <= t; }
      if Download(st, t, cfg).0 {
        ServeKeepsInv(ts, st, t, cfg);
        ServedWithin(ts, t, a, a + cfg.downloadWindow);
      }
    }
  }
}
