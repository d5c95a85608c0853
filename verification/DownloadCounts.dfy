/**
 * What the download counters can be off by: the limit with overlapping requests, the gaps between the
 * three counters, and the requests' own steps against the sequential meaning of one download.
 */
module DownloadCounts {
  import opened Common
  import opened Shipments
  import opened DownloadProtocol

  // ----- The limit, with at most k requests in flight -----

  ghost function InFlight(reqs: map<nat, Phase>): set<nat> {
    set r | r in reqs && (reqs[r].TokenRead? || reqs[r].ShipmentRead? || Writing(reqs[r]))
  }

  ghost function ArmedReqs(reqs: map<nat, Phase>): set<nat> {
    set r | r in reqs && reqs[r].Armed?
  }

  /** No state of the run has more than k requests in flight. */
  ghost predicate AtMostInFlight(s: System, acts: seq<Action>, k: nat)
    decreases |acts|
  {
    && |InFlight(s.reqs)| <= k
    && (acts != [] && Enabled(s, acts[0]) ==> AtMostInFlight(Apply(s, acts[0]), acts[1..], k))
  }

  ghost predicate CapInv(s: System, k: nat) {
    s.rows.successes + |ArmedReqs(s.reqs)| <= s.rows.shipment.maxDownloads + k - 1
  }

  lemma ArmedAreInFlight(s: System, k: nat)
    requires |InFlight(s.reqs)| <= k
    ensures |ArmedReqs(s.reqs)| <= k
  {
    SubsetCard(ArmedReqs(s.reqs), InFlight(s.reqs));
  }

  lemma CountKeepsCap(s: System, r: nat, k: nat)
    requires Inv(s) && Enabled(s, ReqCount(r)) && k >= 1 && |InFlight(Apply(s, ReqCount(r)).reqs)| <= k
    ensures CapInv(Apply(s, ReqCount(r)), k)
  {
    assert PhaseInv(s.rows, s.reqs[r]);
    ArmedAreInFlight(Apply(s, ReqCount(r)), k);
  }

  lemma EventKeepsCap(s: System, r: nat, k: nat)
    requires Enabled(s, WriteEvent(r)) && CapInv(s, k)
    ensures CapInv(Apply(s, WriteEvent(r)), k)
  {
    assert ArmedReqs(s.reqs) == ArmedReqs(Apply(s, WriteEvent(r)).reqs) + {r};
  }

  /** Every other step leaves the success events alone, and arms nobody. */
  lemma OtherStepsArmNobody(s: System, a: Action)
    requires Inv(s) && Enabled(s, a) && !a.ReqCount? && !a.WriteEvent?
    ensures Apply(s, a).rows.successes == s.rows.successes && ArmedReqs(Apply(s, a).reqs) <= ArmedReqs(s.reqs)
  {
  }

  lemma StepKeepsCap(s: System, a: Action, k: nat)
    requires Inv(s) && Enabled(s, a) && CapInv(s, k) && k >= 1
    requires |InFlight(Apply(s, a).reqs)| <= k
    ensures CapInv(Apply(s, a), k)
  {
    match a {
      case ReqCount(r) => CountKeepsCap(s, r, k);
      case WriteEvent(r) => EventKeepsCap(s, r, k);
      case _ =>
        OtherStepsArmNobody(s, a);
        SubsetCard(ArmedReqs(Apply(s, a).reqs), ArmedReqs(s.reqs));
        StepKeepsLimit(s, a);
    }
  }

  /** The limit changes only while nobody is past the shipment check and nothing has been counted. */
  lemma StepKeepsLimit(s: System, a: Action)
    requires Inv(s) && Enabled(s, a)
    ensures var t := Apply(s, a);
      || t.rows.shipment.maxDownloads == s.rows.shipment.maxDownloads
      || (t.rows.successes == 0 && ArmedReqs(s.reqs) == {} && t.rows.shipment.maxDownloads >= 1)
  {
    if a.FinalizeTx? {
      forall r | r in s.reqs ensures !s.reqs[r].Armed? {
        assert PhaseInv(s.rows, s.reqs[r]);
      }
    }
  }

  lemma {:induction false} CapHoldsFrom(s: System, acts: seq<Action>, k: nat)
    requires Inv(s) && Exec(s, acts).Some? && CapInv(s, k) && k >= 1 && AtMostInFlight(s, acts, k)
    ensures CapInv(Exec(s, acts).value, k)
    decreases |acts|
  {
    if acts == [] {
    } else {
      var t := Apply(s, acts[0]);
      StepKeepsInv(s, acts[0]);
      assert AtMostInFlight(t, acts[1..], k);
      StepKeepsCap(s, acts[0], k);
      CapHoldsFrom(t, acts[1..], k);
    }
  }

  /** With at most k requests in flight, at most maxDownloads + k - 1 downloads are ever served. */
  lemma DownloadsAreCapped(s: System, acts: seq<Action>, k: nat)
    requires Fresh(s) && k >= 1 && Exec(s, acts).Some? && AtMostInFlight(s, acts, k)
    ensures Exec(s, acts).value.rows.successes <= Exec(s, acts).value.rows.shipment.maxDownloads + k - 1
  {
    FreshInv(s);
    assert ArmedReqs(s.reqs) == {};
    CapHoldsFrom(s, acts, k);
  }

  // ----- The reads of one request -----

  function Reads(r: nat, id: TokenId, now: int): seq<Action> {
    [ReqToken(r, id, now)] + ([ReqShipment(r)] + [ReqCount(r)])
  }

  ghost predicate ReadsPass(s: System, id: TokenId, now: int) {
    && id in s.rows.tokens && CheckToken(s.rows.tokens[id], now).None?
    && CheckShipment(s.rows.shipment, s.rows.tokens[id].hasRecipient, now).None?
    && s.rows.successes < s.rows.shipment.maxDownloads
  }

  lemma ReadsRun(s: System, r: nat, id: TokenId, now: int)
    requires r !in s.reqs
    ensures Exec(s, Reads(r, id, now)).Some? <==> ReadsPass(s, id, now)
    ensures ReadsPass(s, id, now) ==> Exec(s, Reads(r, id, now)) == Some(s.(reqs := s.reqs[r := Armed(id)]))
  {
    if Enabled(s, ReqToken(r, id, now)) {
      ExecStep(s, ReqToken(r, id, now), [ReqShipment(r)] + [ReqCount(r)]);
      var s1 := Apply(s, ReqToken(r, id, now));
      if Enabled(s1, ReqShipment(r)) {
        ExecStep(s1, ReqShipment(r), [ReqCount(r)]);
        var s2 := Apply(s1, ReqShipment(r));
        assert [ReqCount(r)] + [] == [ReqCount(r)];
        if Enabled(s2, ReqCount(r)) {
          ExecStep(s2, ReqCount(r), []);
          assert Apply(s2, ReqCount(r)).reqs == s.reqs[r := Armed(id)];
        }
      }
    }
  }

  // ----- The cap is reached: k requests that all count before any of them writes -----

  /** A downloadable shipment with one download left, and request numbers below k not used yet. */
  ghost predicate OneLeft(s: System, id: TokenId, now: int, k: nat) {
    && Inv(s) && id in s.rows.tokens && CheckToken(s.rows.tokens[id], now).None?
    && CheckShipment(s.rows.shipment, s.rows.tokens[id].hasRecipient, now).None?
    && s.rows.successes == s.rows.shipment.maxDownloads - 1
    && InFlight(s.reqs) == {}
    && forall r | r in s.reqs :: r >= k
  }

  /** Requests 0 to k - 1 all at the same point. */
  ghost function WithFirst(s: System, k: nat, p: Phase): (t: System)
    ensures t.rows == s.rows && t.resends == s.resends
    ensures forall r: nat :: r in t.reqs <==> r in s.reqs || r < k
    ensures forall r: nat | r < k :: t.reqs[r] == p
  {
    if k == 0 then s else WithFirst(s, k - 1, p).(reqs := WithFirst(s, k - 1, p).reqs[k - 1 := p])
  }

  function Approaches(id: TokenId, now: int, k: nat): seq<Action> {
    if k == 0 then [] else Approaches(id, now, k - 1) + Reads(k - 1, id, now)
  }

  function Writes(k: nat): seq<Action> {
    if k == 0 then [] else Writes(k - 1) + [WriteEvent(k - 1)]
  }

  lemma OneMoreArmed(s: System, id: TokenId, now: int, k: nat)
    requires OneLeft(s, id, now, k + 1)
    ensures Exec(WithFirst(s, k, Armed(id)), Reads(k, id, now)) == Some(WithFirst(s, k + 1, Armed(id)))
  {
    ReadsRun(WithFirst(s, k, Armed(id)), k, id, now);
  }

  lemma {:induction false} AllArmed(s: System, id: TokenId, now: int, k: nat)
    requires OneLeft(s, id, now, k)
    ensures Exec(s, Approaches(id, now, k)) == Some(WithFirst(s, k, Armed(id)))
    decreases k
  {
    hide Reads;
    if k == 0 {
    } else {
      AllArmed(s, id, now, k - 1);
      OneMoreArmed(s, id, now, k - 1);
      ExecConcat(s, Approaches(id, now, k - 1), Reads(k - 1, id, now));
    }
  }

  lemma {:induction false} AllWrite(s: System, id: TokenId, n: nat, k: nat)
    requires n <= k && forall r: nat | r < k :: r in s.reqs && s.reqs[r] == Armed(id)
    ensures Exec(s, Writes(n)).Some?
    ensures var t := Exec(s, Writes(n)).value;
      && t.rows == s.rows.(successes := s.rows.successes + n)
      && forall r: nat | n <= r < k :: r in t.reqs && t.reqs[r] == Armed(id)
    decreases n
  {
    if n == 0 {
    } else {
      AllWrite(s, id, n - 1, k);
      var t := Exec(s, Writes(n - 1)).value;
      ExecConcat(s, Writes(n - 1), [WriteEvent(n - 1)]);
      ExecStep(t, WriteEvent(n - 1), []);
      assert [WriteEvent(n - 1)] + [] == [WriteEvent(n - 1)];
    }
  }

  /** If every request of a run has one of k numbers, no more than k are ever in flight. */
  lemma {:induction false} NumbersBoundFlight(s: System, acts: seq<Action>, numbers: set<nat>, k: nat)
    requires InFlight(s.reqs) <= numbers && |numbers| <= k
    requires forall i | 0 <= i < |acts| && acts[i].ReqToken? :: acts[i].r in numbers
    ensures AtMostInFlight(s, acts, k)
    decreases |acts|
  {
    SubsetCard(InFlight(s.reqs), numbers);
    if acts == [] {
    } else if Enabled(s, acts[0]) {
      var t := Apply(s, acts[0]);
      assert InFlight(t.reqs) <= numbers;
      NumbersBoundFlight(t, acts[1..], numbers, k);
    }
  }

  lemma {:induction false} FlightConcat(s: System, xs: seq<Action>, ys: seq<Action>, k: nat)
    requires Exec(s, xs).Some? && AtMostInFlight(s, xs, k) && AtMostInFlight(Exec(s, xs).value, ys, k)
    ensures AtMostInFlight(s, xs + ys, k)
    decreases |xs|
  {
    if xs == [] {
      assert xs + ys == ys;
    } else {
      assert (xs + ys)[1..] == xs[1..] + ys;
      FlightConcat(Apply(s, xs[0]), xs[1..], ys, k);
    }
  }

  lemma {:induction false} WritesHaveNoToken(n: nat)
    ensures forall i | 0 <= i < |Writes(n)| :: Writes(n)[i].WriteEvent?
  {
    if n == 0 {
    } else {
      WritesHaveNoToken(n - 1);
    }
  }

  lemma {:induction false} ApproachNumbers(id: TokenId, now: int, k: nat)
    ensures forall i | 0 <= i < |Approaches(id, now, k)| && Approaches(id, now, k)[i].ReqToken? :: Approaches(id, now, k)[i].r < k
  {
    if k == 0 {
    } else {
      ApproachNumbers(id, now, k - 1);
    }
  }

  /** From one download left, k overlapping requests take the count to maxDownloads + k - 1. */
  lemma OverlapPastTheLimit(s: System, id: TokenId, now: int, k: nat)
    requires OneLeft(s, id, now, k)
    ensures var end := Exec(s, Approaches(id, now, k) + Writes(k));
      && end.Some? && end.value.rows.successes == end.value.rows.shipment.maxDownloads + k - 1
      && end.value.rows.shipment == s.rows.shipment
    ensures AtMostInFlight(s, Approaches(id, now, k) + Writes(k), k)
  {
    ApproachNumbers(id, now, k);
    WritesHaveNoToken(k);
    NumbersBoundFlight(s, Approaches(id, now, k) + Writes(k), Below(k), k);
    AllArmed(s, id, now, k);
    ExecConcat(s, Approaches(id, now, k), Writes(k));
    AllWrite(WithFirst(s, k, Armed(id)), id, k, k);
  }

  // ----- One request on its own -----

  function ServingWrites(r: nat): seq<Action> {
    [WriteEvent(r)] + ([WriteUsage(r)] + [WriteCount(r)])
  }

  lemma WritesRun(s: System, r: nat, id: TokenId)
    requires r in s.reqs && s.reqs[r] == Armed(id) && id in s.rows.tokens
    ensures Exec(s, ServingWrites(r)) == Some(System(Shipments.Served(s.rows, id), s.reqs[r := Done], s.resends))
  {
    ExecStep(s, WriteEvent(r), [WriteUsage(r)] + [WriteCount(r)]);
    var s1 := Apply(s, WriteEvent(r));
    ExecStep(s1, WriteUsage(r), [WriteCount(r)]);
    var s2 := Apply(s1, WriteUsage(r));
    assert [WriteCount(r)] + [] == [WriteCount(r)];
    ExecStep(s2, WriteCount(r), []);
    assert Apply(s2, WriteCount(r)).reqs == s.reqs[r := Done];
  }

  lemma PassingStepsRun(s: System, r: nat, id: TokenId, now: int)
    requires r !in s.reqs && ReadsPass(s, id, now)
    ensures Exec(s, Reads(r, id, now) + ServingWrites(r))
         == Some(System(Shipments.Served(s.rows, id), s.reqs[r := Done], s.resends))
  {
    var mid := s.(reqs := s.reqs[r := Armed(id)]);
    ReadsRun(s, r, id, now);
    ExecConcat(s, Reads(r, id, now), ServingWrites(r));
    WritesRun(mid, r, id);
    assert mid.reqs[r := Done] == s.reqs[r := Done];
  }

  /**
   * The steps of a request with nothing in between are the sequential download: they can be taken
   * exactly when that download is served, and leave the same rows.
   */
  lemma StepsAreADownload(s: System, r: nat, id: TokenId, now: int)
    requires r !in s.reqs
    ensures var (refusal, after) := Download(s.rows, id, now, Surroundings(true, true, true, true));
      var end := Exec(s, Reads(r, id, now) + ServingWrites(r));
      (end.Some? <==> refusal.None?) && (end.Some? ==> end.value.rows == after)
  {
    ReadsRun(s, r, id, now);
    if ReadsPass(s, id, now) {
      PassingStepsRun(s, r, id, now);
    } else {
      ExecStops(s, Reads(r, id, now), ServingWrites(r));
    }
  }

  lemma {:induction false} ExecStops(s: System, xs: seq<Action>, ys: seq<Action>)
    requires Exec(s, xs).None?
    ensures Exec(s, xs + ys).None?
    decreases |xs|
  {
    if xs == [] {
    } else if Enabled(s, xs[0]) {
      assert (xs + ys)[1..] == xs[1..] + ys;
      ExecStops(Apply(s, xs[0]), xs[1..], ys);
    }
  }

  // ----- The cap is reached from a fresh shipment -----

  /** n requests one after another, with the numbers from r on. */
  function Serial(r: nat, id: TokenId, now: int, n: nat): seq<Action> {
    if n == 0 then [] else Serial(r, id, now, n - 1) + (Reads(r + n - 1, id, now) + ServingWrites(r + n - 1))
  }

  /** Nobody in flight, and no number from r to hi in use. */
  ghost predicate Quiet(s: System, r: nat, hi: nat) {
    InFlight(s.reqs) == {} && forall x | x in s.reqs :: x < hi && x >= r
  }

  lemma OneServed(s: System, r: nat, lo: nat, id: TokenId, now: int)
    requires InStep(s.rows) && id in s.rows.tokens && now <= s.rows.shipment.expiresAt && Quiet(s, lo, r) && lo <= r
    requires s.rows.successes < s.rows.shipment.maxDownloads
    ensures var end := Exec(s, Reads(r, id, now) + ServingWrites(r));
      end == Some(System(Shipments.Served(s.rows, id), s.reqs[r := Done], s.resends)) && Quiet(end.value, lo, r + 1)
    ensures AtMostInFlight(s, Reads(r, id, now) + ServingWrites(r), 1)
  {
    assert InStepToken(s.rows.tokens[id], s.rows.shipment, s.rows.successes);
    assert ReadsPass(s, id, now);
    PassingStepsRun(s, r, id, now);
    assert InFlight(s.reqs[r := Done]) == {};
    NumbersBoundFlight(s, Reads(r, id, now) + ServingWrites(r), {r}, 1);
  }

  ghost predicate AfterSerial(s: System, t: System, lo: nat, n: nat) {
    && InStep(t.rows) && t.rows.tokens.Keys == s.rows.tokens.Keys && t.rows.shipment.expiresAt == s.rows.shipment.expiresAt
    && t.rows.shipment.maxDownloads == s.rows.shipment.maxDownloads && t.rows.successes == s.rows.successes + n
    && Quiet(t, lo, lo + n)
  }

  lemma {:induction false} SerialRun(s: System, lo: nat, id: TokenId, now: int, n: nat)
    requires InStep(s.rows) && id in s.rows.tokens && now <= s.rows.shipment.expiresAt && Quiet(s, lo, lo)
    requires s.rows.successes + n <= s.rows.shipment.maxDownloads
    ensures Exec(s, Serial(lo, id, now, n)).Some? && AfterSerial(s, Exec(s, Serial(lo, id, now, n)).value, lo, n)
    ensures AtMostInFlight(s, Serial(lo, id, now, n), 1)
    decreases n
  {
    hide Reads;
    hide ServingWrites;
    if n == 0 {
    } else {
      var before, r := Serial(lo, id, now, n - 1), lo + n - 1;
      SerialRun(s, lo, id, now, n - 1);
      var mid := Exec(s, before).value;
      OneMoreServed(s, mid, lo, id, now, n - 1);
      ExecConcat(s, before, Reads(r, id, now) + ServingWrites(r));
      FlightConcat(s, before, Reads(r, id, now) + ServingWrites(r), 1);
    }
  }

  lemma OneMoreServed(s: System, mid: System, lo: nat, id: TokenId, now: int, n: nat)
    requires AfterSerial(s, mid, lo, n) && id in s.rows.tokens && now <= s.rows.shipment.expiresAt
    requires s.rows.successes + n < s.rows.shipment.maxDownloads
    ensures var acts := Reads(lo + n, id, now) + ServingWrites(lo + n);
      && Exec(mid, acts).Some? && AfterSerial(s, Exec(mid, acts).value, lo, n + 1) && AtMostInFlight(mid, acts, 1)
  {
    hide Reads;
    hide ServingWrites;
    hide Exec;
    hide AtMostInFlight;
    OneServed(mid, lo + n, lo, id, now);
    InStepDownload(mid.rows, Query(id, now));
  }

  lemma {:induction false} FlightGrows(s: System, acts: seq<Action>, k: nat)
    requires AtMostInFlight(s, acts, 1) && k >= 1
    ensures AtMostInFlight(s, acts, k)
    decreases |acts|
  {
    if acts == [] {
    } else if Enabled(s, acts[0]) {
      FlightGrows(Apply(s, acts[0]), acts[1..], k);
    }
  }

  /** Finalize with one token, download one after another until one is left, then k at once. */
  function OverTheLimit(d: int, expiresAt: int, id: TokenId, now: int, k: nat): seq<Action>
    requires d >= 1
  {
    [FinalizeTx(d, expiresAt, false, false, {id})] + (Serial(k, id, now, d - 1) + (Approaches(id, now, k) + Writes(k)))
  }

  lemma OneLeftAfterSerial(s: System, t: System, id: TokenId, now: int, k: nat, n: nat)
    requires AfterSerial(s, t, k, n) && Inv(t) && id in t.rows.tokens && now <= t.rows.shipment.expiresAt
    requires t.rows.successes == t.rows.shipment.maxDownloads - 1
    ensures OneLeft(t, id, now, k)
  {
    assert InStepToken(t.rows.tokens[id], t.rows.shipment, t.rows.successes);
  }

  lemma Finalized(s: System, d: int, expiresAt: int, id: TokenId)
    requires Fresh(s) && 1 <= d <= 100
    ensures var a := FinalizeTx(d, expiresAt, false, false, {id});
      && Enabled(s, a) && Inv(Apply(s, a)) && InStep(Apply(s, a).rows) && Apply(s, a).rows.tokens.Keys == {id}
      && Apply(s, a).reqs == map[] && Apply(s, a).rows.successes == 0
      && Apply(s, a).rows.shipment.maxDownloads == d && Apply(s, a).rows.shipment.expiresAt == expiresAt
  {
    FreshInv(s);
    StepKeepsInv(s, FinalizeTx(d, expiresAt, false, false, {id}));
    FinalizedInStep(s.rows, d, expiresAt, false, false, {id});
  }

  lemma SerialThenOverlap(s: System, d: int, id: TokenId, now: int, k: nat)
    requires Inv(s) && InStep(s.rows) && id in s.rows.tokens && now <= s.rows.shipment.expiresAt && s.reqs == map[] && k >= 1
    requires s.rows.successes == 0 && s.rows.shipment.maxDownloads == d
    ensures var acts := Serial(k, id, now, d - 1) + (Approaches(id, now, k) + Writes(k));
      && AtMostInFlight(s, acts, k) && Exec(s, acts).Some?
      && Exec(s, acts).value.rows.successes == d + k - 1 && Exec(s, acts).value.rows.shipment.maxDownloads == d
  {
    var xs, ys := Serial(k, id, now, d - 1), Approaches(id, now, k) + Writes(k);
    assert InFlight(s.reqs) == {};
    SerialRun(s, k, id, now, d - 1);
    RunKeepsInv(s, xs);
    var t := Exec(s, xs).value;
    OneLeftAfterSerial(s, t, id, now, k, d - 1);
    OverlapPastTheLimit(t, id, now, k);
    ExecConcat(s, xs, ys);
    FlightGrows(s, xs, k);
    FlightConcat(s, xs, ys, k);
  }

  /**
   * The cap is exact: from every fresh shipment, for every limit and every k, a run with at most k
   * requests in flight takes the count to maxDownloads + k - 1.
   */
  lemma CapIsReached(s: System, d: int, expiresAt: int, id: TokenId, now: int, k: nat)
    requires Fresh(s) && 1 <= d <= 100 && now <= expiresAt && k >= 1
    ensures var acts := OverTheLimit(d, expiresAt, id, now, k);
      && AtMostInFlight(s, acts, k) && Exec(s, acts).Some?
      && Exec(s, acts).value.rows.shipment.maxDownloads == d
      && Exec(s, acts).value.rows.successes == d + k - 1
  {
    var a := FinalizeTx(d, expiresAt, false, false, {id});
    var rest := Serial(k, id, now, d - 1) + (Approaches(id, now, k) + Writes(k));
    Finalized(s, d, expiresAt, id);
    SerialThenOverlap(Apply(s, a), d, id, now, k);
    FirstThenRun(s, a, rest, k);
  }

  lemma FirstThenRun(s: System, a: Action, rest: seq<Action>, k: nat)
    requires Enabled(s, a) && s.reqs == map[] && AtMostInFlight(Apply(s, a), rest, k)
    ensures Exec(s, [a] + rest) == Exec(Apply(s, a), rest) && AtMostInFlight(s, [a] + rest, k)
  {
    ExecStep(s, a, rest);
    assert ([a] + rest)[1..] == rest && InFlight(s.reqs) == {};
  }

  // ----- The three counters -----

  ghost function Uses(m: map<TokenId, Token>): nat
    decreases |m|
  {
    if m == map[] then 0 else var k :| k in m; Uses(m - {k}) + m[k].usedCount
  }

  lemma {:induction false} UsesWithout(m: map<TokenId, Token>, id: TokenId)
    requires id in m
    ensures Uses(m) == Uses(m - {id}) + m[id].usedCount
    decreases |m|
  {
    var k :| k in m && Uses(m) == Uses(m - {k}) + m[k].usedCount;
    if k == id {
    } else {
      UsesWithout(m - {k}, id);
      UsesWithout(m - {id}, k);
      assert m - {k} - {id} == m - {id} - {k};
    }
  }

  /** Only the counts matter, and tokens never used add nothing. */
  lemma {:induction false} UsesAgree(m: map<TokenId, Token>, n: map<TokenId, Token>)
    requires m.Keys <= n.Keys && forall k | k in m :: n[k].usedCount == m[k].usedCount
    requires forall k | k in n && k !in m :: n[k].usedCount == 0
    ensures Uses(n) == Uses(m)
    decreases |n|
  {
    if n == map[] {
      assert m == map[];
    } else {
      var k :| k in n;
      UsesWithout(n, k);
      if k in m {
        UsesWithout(m, k);
        UsesAgree(m - {k}, n - {k});
      } else {
        UsesAgree(m, n - {k});
      }
    }
  }

  /** Requests between the event and the usage update: on their way, or stopped for good. */
  ghost function AfterEvent(reqs: map<nat, Phase>): set<nat> {
    set r | r in reqs && (reqs[r].EventWritten? || reqs[r].StoppedAfterEvent?)
  }

  /** Requests between the usage update and the shipment's own count. */
  ghost function AfterUsage(reqs: map<nat, Phase>): set<nat> {
    set r | r in reqs && (reqs[r].UsageWritten? || reqs[r].StoppedAfterUsage?)
  }

  ghost predicate CountsInv(s: System) {
    && s.rows.successes == Uses(s.rows.tokens) + |AfterEvent(s.reqs)|
    && Uses(s.rows.tokens) == s.rows.shipment.currentDownloads + |AfterUsage(s.reqs)|
  }

  lemma EventKeepsCounts(s: System, r: nat)
    requires Inv(s) && Enabled(s, WriteEvent(r)) && CountsInv(s)
    ensures CountsInv(Apply(s, WriteEvent(r)))
  {
    var t := Apply(s, WriteEvent(r));
    assert AfterEvent(t.reqs) == AfterEvent(s.reqs) + {r};
    assert AfterUsage(t.reqs) == AfterUsage(s.reqs);
  }

  lemma UseAddsOne(m: map<TokenId, Token>, id: TokenId)
    requires id in m
    ensures Uses(m[id := UseToken(m[id])]) == Uses(m) + 1
  {
    var n := m[id := UseToken(m[id])];
    UsesWithout(m, id);
    UsesWithout(n, id);
    assert m - {id} == n - {id};
  }

  lemma UsageKeepsCounts(s: System, r: nat)
    requires Inv(s) && Enabled(s, WriteUsage(r)) && CountsInv(s)
    ensures CountsInv(Apply(s, WriteUsage(r)))
  {
    var t := Apply(s, WriteUsage(r));
    UseAddsOne(s.rows.tokens, s.reqs[r].tok);
    assert AfterEvent(s.reqs) == AfterEvent(t.reqs) + {r};
    assert AfterUsage(t.reqs) == AfterUsage(s.reqs) + {r};
  }

  lemma CountKeepsCounts(s: System, r: nat)
    requires Inv(s) && Enabled(s, WriteCount(r)) && CountsInv(s)
    ensures CountsInv(Apply(s, WriteCount(r)))
  {
    var t := Apply(s, WriteCount(r));
    assert AfterEvent(t.reqs) == AfterEvent(s.reqs);
    assert AfterUsage(s.reqs) == AfterUsage(t.reqs) + {r};
  }

  lemma OtherStepsKeepCounts(s: System, a: Action)
    requires Inv(s) && Enabled(s, a) && CountsInv(s)
    requires !(a.WriteEvent? || a.WriteUsage? || a.WriteCount?)
    ensures CountsInv(Apply(s, a))
  {
    OtherStepsMoveNobody(s, a);
    UsesAgree(s.rows.tokens, Apply(s, a).rows.tokens);
  }

  lemma OtherStepsMoveNobody(s: System, a: Action)
    requires Enabled(s, a) && !(a.WriteEvent? || a.WriteUsage? || a.WriteCount?)
    ensures AfterEvent(Apply(s, a).reqs) == AfterEvent(s.reqs) && AfterUsage(Apply(s, a).reqs) == AfterUsage(s.reqs)
  {
  }

  lemma {:induction false} CountsFrom(s: System, acts: seq<Action>)
    requires Inv(s) && CountsInv(s) && Exec(s, acts).Some?
    ensures CountsInv(Exec(s, acts).value)
    decreases |acts|
  {
    if acts == [] {
    } else {
      var a := acts[0];
      StepKeepsInv(s, a);
      match a {
        case WriteEvent(r) => EventKeepsCounts(s, r);
        case WriteUsage(r) => UsageKeepsCounts(s, r);
        case WriteCount(r) => CountKeepsCounts(s, r);
        case _ => OtherStepsKeepCounts(s, a);
      }
      CountsFrom(Apply(s, a), acts[1..]);
    }
  }

  /**
   * In every reachable state current_downloads <= the sum of used_count <= success events, and each gap
   * is exactly the number of requests in flight or stopped between the two writes.
   */
  lemma CountersNeverOvertake(s: System, acts: seq<Action>)
    requires Fresh(s) && Exec(s, acts).Some?
    ensures var t := Exec(s, acts).value;
      && t.rows.shipment.currentDownloads <= Uses(t.rows.tokens) <= t.rows.successes
      && t.rows.successes - Uses(t.rows.tokens) == |AfterEvent(t.reqs)|
      && Uses(t.rows.tokens) - t.rows.shipment.currentDownloads == |AfterUsage(t.reqs)|
  {
    FreshInv(s);
    assert AfterEvent(s.reqs) == {} && AfterUsage(s.reqs) == {};
    CountsFrom(s, acts);
  }
}
