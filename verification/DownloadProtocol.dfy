/**
 * Download requests against one shipment, as the separate autocommitted statements they are,
 * interleaved with finalizing, deleting, expiring, token revocation and the resend of notifications.
 */
module DownloadProtocol {
  import opened Common
  import opened Shipments

  /** How far a request has come, with what it remembers from its earlier reads. */
  datatype Phase =
    | TokenRead(tok: TokenId, hasRecipient: bool, now: int)
    | ShipmentRead(tok: TokenId, maxDownloads: int)
    | Armed(tok: TokenId)                 // the count it read was below the limit
    | EventWritten(tok: TokenId)
    | UsageWritten(tok: TokenId)
    | Done                                // the URL has been handed out
    | Refused
    | StoppedAfterEvent                   // failed or crashed between two writes
    | StoppedAfterUsage

  /** `resends` holds, for each resend past its checks, the token its copy of the shipment calls for. */
  datatype System = System(rows: Rows, reqs: map<nat, Phase>, resends: map<nat, Token>)

  datatype Action =
    | ReqToken(r: nat, id: TokenId, now: int)
    | ReqShipment(r: nat)
    | ReqCount(r: nat)
    | ReqRefused(r: nat)
    | WriteEvent(r: nat)
    | WriteUsage(r: nat)
    | WriteCount(r: nat)
    | Stop(r: nat)
    | FinalizeTx(maxDownloads: int, expiresAt: int, restricted: bool, password: bool, ids: set<TokenId>)
    | DeleteTx(now: int)
    | DeleteRow(now: int)
    | RevokeAll(now: int)
    | Expire
    | ResendCheck(k: nat, now: int)
    | ResendCreate(k: nat, id: TokenId)

  predicate Resendable(s: Shipment, now: int) {
    s.recipientRestricted && s.status in {Sent, Ready} && s.deletedAt.None? && s.expiresAt >= now
  }

  ghost predicate Enabled(s: System, a: Action) {
    var rows, reqs := s.rows, s.reqs;
    match a
    case ReqToken(r, id, now) => r !in reqs && id in rows.tokens && CheckToken(rows.tokens[id], now).None?
    case ReqShipment(r) =>
      r in reqs && reqs[r].TokenRead? && CheckShipment(rows.shipment, reqs[r].hasRecipient, reqs[r].now).None?
    case ReqCount(r) => r in reqs && reqs[r].ShipmentRead? && rows.successes < reqs[r].maxDownloads
    case ReqRefused(r) => r in reqs && (reqs[r].TokenRead? || reqs[r].ShipmentRead? || reqs[r].Armed?)
    case WriteEvent(r) => r in reqs && reqs[r].Armed?
    case WriteUsage(r) => r in reqs && reqs[r].EventWritten? && reqs[r].tok in rows.tokens
    case WriteCount(r) => r in reqs && reqs[r].UsageWritten?
    case Stop(r) => r in reqs && (reqs[r].EventWritten? || reqs[r].UsageWritten?)
    case FinalizeTx(maxDownloads, _, _, _, ids) =>
      Finalizable(rows.shipment) && 1 <= maxDownloads <= 100 && ids !! rows.tokens.Keys
    case DeleteTx(_) => Deletable(rows.shipment)
    case DeleteRow(_) => Deletable(rows.shipment)
    case RevokeAll(_) => true
    case Expire => Expirable(rows.shipment)
    case ResendCheck(k, now) => k !in s.resends && Resendable(rows.shipment, now)
    case ResendCreate(k, id) => k in s.resends && id !in rows.tokens
  }

  ghost function Apply(s: System, a: Action): System
    requires Enabled(s, a)
  {
    var rows, reqs := s.rows, s.reqs;
    match a
    case ReqToken(r, id, now) => s.(reqs := reqs[r := TokenRead(id, rows.tokens[id].hasRecipient, now)])
    case ReqShipment(r) => s.(reqs := reqs[r := ShipmentRead(reqs[r].tok, rows.shipment.maxDownloads)])
    case ReqCount(r) => s.(reqs := reqs[r := Armed(reqs[r].tok)])
    case ReqRefused(r) => s.(reqs := reqs[r := Refused])
    case WriteEvent(r) => s.(reqs := reqs[r := EventWritten(reqs[r].tok)], rows := rows.(successes := rows.successes + 1))
    case WriteUsage(r) =>
      var tok := reqs[r].tok;
      s.(reqs := reqs[r := UsageWritten(tok)], rows := rows.(tokens := rows.tokens[tok := UseToken(rows.tokens[tok])]))
    case WriteCount(r) => s.(reqs := reqs[r := Done], rows := rows.(shipment := CountDownload(rows.shipment)))
    case Stop(r) => s.(reqs := reqs[r := if reqs[r].EventWritten? then StoppedAfterEvent else StoppedAfterUsage])
    case FinalizeTx(maxDownloads, expiresAt, restricted, password, ids) =>
      s.(rows := Finalize(rows, maxDownloads, expiresAt, restricted, password, ids))
    case DeleteTx(now) => s.(rows := Delete(rows, now))
    case DeleteRow(now) => s.(rows := Delete(rows, now).(tokens := rows.tokens))
    case RevokeAll(now) => s.(rows := rows.(tokens := RevokeTokens(rows.tokens, now)))
    case Expire => s.(rows := rows.(shipment := rows.shipment.(status := Expired)))
    case ResendCheck(k, now) => s.(resends := s.resends[k := NewToken(rows.shipment)])
    case ResendCreate(k, id) => s.(rows := rows.(tokens := rows.tokens[id := s.resends[k]]))
  }

  /**
   * The steps that write rows write what the store's statements promise, and the other steps write nothing.
   * A resend creates an unused token for the shipment as it was when the resend was checked.
   */
  lemma StepsAreStatements(s: System, a: Action)
    requires Enabled(s, a)
    ensures var r, t := s.rows, Apply(s, a).rows;
      match a
      case WriteEvent(_) => t == Rows(r.shipment, r.tokens, r.successes + 1)
      case WriteUsage(q) =>
        && s.reqs[q].tok in t.tokens && UsedAs(r.tokens[s.reqs[q].tok], t.tokens[s.reqs[q].tok])
        && t == Rows(r.shipment, r.tokens[s.reqs[q].tok := t.tokens[s.reqs[q].tok]], r.successes)
      case WriteCount(_) => CountedAs(r.shipment, t.shipment) && t.tokens == r.tokens && t.successes == r.successes
      case FinalizeTx(maxDownloads, expiresAt, restricted, password, ids) =>
        && FinalizedAs(r.shipment, t.shipment, maxDownloads, expiresAt, restricted, password)
        && GainsTokens(r.tokens, t.tokens, ids, maxDownloads, expiresAt, restricted) && t.successes == r.successes
      case DeleteTx(now) =>
        DeletedAs(r.shipment, t.shipment, now) && AllRevoked(r.tokens, t.tokens, now) && t.successes == r.successes
      case DeleteRow(now) => DeletedAs(r.shipment, t.shipment, now) && t.tokens == r.tokens && t.successes == r.successes
      case RevokeAll(now) => AllRevoked(r.tokens, t.tokens, now) && t.shipment == r.shipment && t.successes == r.successes
      case Expire => t == Rows(t.shipment, r.tokens, r.successes) && t.shipment == r.shipment.(status := Expired)
      case ResendCreate(k, id) => t == Rows(r.shipment, r.tokens[id := s.resends[k]], r.successes)
      case _ => t == r
    ensures a.ResendCheck? ==>
      && a.k in Apply(s, a).resends
      && Unused(Apply(s, a).resends[a.k], s.rows.shipment.maxDownloads, s.rows.shipment.expiresAt, s.rows.shipment.recipientRestricted)
  {
  }

  // ----- The invariant -----

  ghost predicate Writing(p: Phase) {
    p.Armed? || p.EventWritten? || p.UsageWritten?
  }

  ghost predicate PhaseInv(rows: Rows, p: Phase) {
    && ((p.TokenRead? || p.ShipmentRead? || Writing(p)) ==> p.tok in rows.tokens)
    && (p.ShipmentRead? ==> p.maxDownloads == rows.shipment.maxDownloads)
    && ((p.ShipmentRead? || Writing(p)) ==> Rank(rows.shipment.status) >= 1)
  }

  ghost predicate PhasesInv(rows: Rows, reqs: map<nat, Phase>) {
    forall r | r in reqs :: PhaseInv(rows, reqs[r])
  }

  /** A revoked status carries its time, so it may be lost (a usage update overwrites it) but the time is not. */
  ghost predicate TokensInv(tokens: map<TokenId, Token>) {
    forall t | t in tokens :: tokens[t].status == TokenRevoked ==> tokens[t].revokedAt.Some?
  }

  ghost predicate ShipmentInv(rows: Rows) {
    && (rows.shipment.status == Deleted ==> rows.shipment.deletedAt.Some?)
    && (Rank(rows.shipment.status) == 0 ==> rows.successes == 0)
    && rows.shipment.maxDownloads >= 1
  }

  ghost predicate ResendsInv(resends: map<nat, Token>) {
    forall k | k in resends :: resends[k].usedCount == 0 && resends[k].status == TokenActive
  }

  ghost predicate Inv(s: System) {
    PhasesInv(s.rows, s.reqs) && TokensInv(s.rows.tokens) && ShipmentInv(s.rows) && ResendsInv(s.resends)
  }

  lemma StepKeepsPhases(s: System, a: Action)
    requires Inv(s) && Enabled(s, a)
    ensures PhasesInv(Apply(s, a).rows, Apply(s, a).reqs)
  {
    var t := Apply(s, a);
    forall r | r in t.reqs ensures PhaseInv(t.rows, t.reqs[r]) {
      if r in s.reqs { assert PhaseInv(s.rows, s.reqs[r]); }
    }
  }

  lemma StepKeepsInv(s: System, a: Action)
    requires Inv(s) && Enabled(s, a)
    ensures Inv(Apply(s, a))
  {
    StepKeepsPhases(s, a);
    assert a.WriteEvent? ==> PhaseInv(s.rows, s.reqs[a.r]);
  }

  // ----- Runs -----

  ghost function Exec(s: System, acts: seq<Action>): Option<System>
    decreases |acts|
  {
    if acts == [] then Some(s)
    else if Enabled(s, acts[0]) then Exec(Apply(s, acts[0]), acts[1..])
    else None
  }

  ghost predicate Fresh(s: System) {
    && s.reqs == map[] && s.resends == map[] && s.rows.tokens == map[] && s.rows.successes == 0
    && s.rows.shipment.currentDownloads == 0 && s.rows.shipment.maxDownloads >= 1
    && s.rows.shipment.status in {Draft, Uploading} && s.rows.shipment.deletedAt.None?
  }

  lemma FreshInv(s: System)
    requires Fresh(s)
    ensures Inv(s)
  {
  }

  lemma {:induction false} RunKeepsInv(s: System, acts: seq<Action>)
    requires Inv(s) && Exec(s, acts).Some?
    ensures Inv(Exec(s, acts).value)
    decreases |acts|
  {
    if acts == [] {
    } else {
      StepKeepsInv(s, acts[0]);
      RunKeepsInv(Apply(s, acts[0]), acts[1..]);
    }
  }

  lemma ExecStep(s: System, a: Action, rest: seq<Action>)
    requires Enabled(s, a)
    ensures Exec(s, [a] + rest) == Exec(Apply(s, a), rest)
  {
    assert ([a] + rest)[1..] == rest;
  }

  lemma {:induction false} ExecConcat(s: System, xs: seq<Action>, ys: seq<Action>)
    requires Exec(s, xs).Some?
    ensures Exec(s, xs + ys) == Exec(Exec(s, xs).value, ys)
    decreases |xs|
  {
    if xs == [] {
      assert xs + ys == ys;
    } else {
      assert (xs + ys)[1..] == xs[1..] + ys;
      ExecConcat(Apply(s, xs[0]), xs[1..], ys);
    }
  }

  // ----- The status only moves upward -----

  ghost predicate ShipmentMovesUp(s: Shipment, t: Shipment) {
    && Rank(s.status) <= Rank(t.status)
    && (s.status == Deleted ==> t.status == Deleted)
    && (s.deletedAt.Some? ==> t.deletedAt == s.deletedAt)
    && (Rank(s.status) >= 1 ==> t.maxDownloads == s.maxDownloads && t.expiresAt == s.expiresAt)
  }

  ghost predicate TokensMoveOn(s: map<TokenId, Token>, t: map<TokenId, Token>) {
    && s.Keys <= t.Keys
    && (forall id | id in s && s[id].revokedAt.Some? :: t[id].revokedAt == s[id].revokedAt)
    && (forall id | id in s :: s[id].usedCount <= t[id].usedCount)
  }

  lemma StepMovesUp(s: System, a: Action)
    requires Inv(s) && Enabled(s, a)
    ensures ShipmentMovesUp(s.rows.shipment, Apply(s, a).rows.shipment)
    ensures a.FinalizeTx? ==> Rank(s.rows.shipment.status) == 0 && Rank(Apply(s, a).rows.shipment.status) == 1
  {
  }

  lemma StepMovesTokensOn(s: System, a: Action)
    requires Inv(s) && Enabled(s, a)
    ensures TokensMoveOn(s.rows.tokens, Apply(s, a).rows.tokens)
  {
    match a {
      case DeleteTx(now) => RevokingMovesOn(s.rows.tokens, now);
      case RevokeAll(now) => RevokingMovesOn(s.rows.tokens, now);
      case _ =>
    }
  }

  lemma RevokingMovesOn(tokens: map<TokenId, Token>, now: int)
    requires TokensInv(tokens)
    ensures TokensMoveOn(tokens, RevokeTokens(tokens, now))
  {
  }

  function Finalizations(acts: seq<Action>): nat {
    if acts == [] then 0 else (if acts[0].FinalizeTx? then 1 else 0) + Finalizations(acts[1..])
  }

  /**
   * Over any run the status rank never falls, a shipment is finalized at most once, `deleted` and its
   * time are forever, the download limit is fixed once the shipment is sent, and revocation times stand.
   */
  lemma {:induction false} LifecycleMovesUp(s: System, acts: seq<Action>)
    requires Inv(s) && Exec(s, acts).Some?
    ensures ShipmentMovesUp(s.rows.shipment, Exec(s, acts).value.rows.shipment)
    ensures TokensMoveOn(s.rows.tokens, Exec(s, acts).value.rows.tokens)
    ensures Finalizations(acts) <= 1 && (Rank(s.rows.shipment.status) >= 1 ==> Finalizations(acts) == 0)
    decreases |acts|
  {
    if acts == [] {
    } else {
      var t := Apply(s, acts[0]);
      StepKeepsInv(s, acts[0]);
      StepMovesUp(s, acts[0]);
      StepMovesTokensOn(s, acts[0]);
      LifecycleMovesUp(t, acts[1..]);
    }
  }

  // ----- Delete is final -----

  /** Requests that are past the check of the shipment's status, and may still be served. */
  ghost function PastCheck(reqs: map<nat, Phase>): set<nat> {
    set r | r in reqs && (reqs[r].ShipmentRead? || Writing(reqs[r]))
  }

  ghost function Served(reqs: map<nat, Phase>): set<nat> {
    set r | r in reqs && reqs[r].Done?
  }

  lemma StepAfterDelete(s: System, a: Action)
    requires Inv(s) && Enabled(s, a) && Rank(s.rows.shipment.status) >= 3
    ensures var t := Apply(s, a);
      && Served(t.reqs) <= Served(s.reqs) + PastCheck(s.reqs) && PastCheck(t.reqs) <= PastCheck(s.reqs)
      && Rank(t.rows.shipment.status) >= 3
  {
  }

  /**
   * Once a shipment is expired, deleted or revoked, the only requests ever served are the ones that had
   * read the shipment before. No token created by a racing resend changes that.
   */
  lemma {:induction false} DeleteIsFinal(s: System, acts: seq<Action>)
    requires Inv(s) && Exec(s, acts).Some? && Rank(s.rows.shipment.status) >= 3
    ensures Served(Exec(s, acts).value.reqs) <= Served(s.reqs) + PastCheck(s.reqs)
    ensures PastCheck(Exec(s, acts).value.reqs) <= PastCheck(s.reqs)
    decreases |acts|
  {
    if acts == [] {
    } else {
      StepKeepsInv(s, acts[0]);
      StepAfterDelete(s, acts[0]);
      DeleteIsFinal(Apply(s, acts[0]), acts[1..]);
    }
  }

  /** A token that a delete found is never accepted again, whatever happens to its status. */
  lemma RevokedTokensStayRefused(s: System, now: int, acts: seq<Action>, id: TokenId, later: int)
    requires Inv(s) && id in s.rows.tokens
    requires Enabled(s, DeleteTx(now)) && Exec(s, [DeleteTx(now)] + acts).Some?
    ensures var t := Exec(s, [DeleteTx(now)] + acts).value;
      id in t.rows.tokens && t.rows.tokens[id].revokedAt.Some? && CheckToken(t.rows.tokens[id], later).Some?
  {
    StepKeepsInv(s, DeleteTx(now));
    var mid := Apply(s, DeleteTx(now));
    ExecStep(s, DeleteTx(now), acts);
    assert mid.rows.tokens[id].revokedAt.Some?;
    LifecycleMovesUp(mid, acts);
  }

  /**
   * The status alone would not do: after a delete, a usage update in flight turns `revoked` into `used`
   * exactly when it is the token's last use, and leaves it revoked otherwise.
   */
  lemma RevokedStatusIsOverwritten(s: System, r: nat, now: int)
    requires Inv(s) && Deletable(s.rows.shipment) && r in s.reqs && s.reqs[r].EventWritten?
    ensures s.reqs[r].tok in s.rows.tokens
    ensures Exec(s, [DeleteTx(now)] + [WriteUsage(r)]).Some?
    ensures var t, id := Exec(s, [DeleteTx(now)] + [WriteUsage(r)]).value, s.reqs[r].tok;
      && id in t.rows.tokens && t.rows.tokens[id].status in {TokenUsed, TokenRevoked}
      && (t.rows.tokens[id].status == TokenUsed <==> s.rows.tokens[id].usedCount + 1 >= s.rows.tokens[id].maxUses)
  {
    assert PhaseInv(s.rows, s.reqs[r]);
    var mid := Apply(s, DeleteTx(now));
    ExecStep(s, DeleteTx(now), [WriteUsage(r)]);
    ExecStep(mid, WriteUsage(r), []);
    assert [WriteUsage(r)] + [] == [WriteUsage(r)];
    assert mid.rows.tokens[s.reqs[r].tok].status == TokenRevoked;
  }
}
