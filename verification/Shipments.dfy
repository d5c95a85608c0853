/**
 * One shipment, its access tokens and its success events: what each store statement does to the rows.
 * Interleavings of requests are in DownloadProtocol. Rows are not physically deleted here.
 */
module Shipments {
  import opened Common

  type TokenId = nat

  datatype Status = Draft | Uploading | Ready | Sent | Accessed | Expired | Deleted | Revoked

  datatype TokenStatus = TokenActive | TokenUsed | TokenRevoked

  datatype Shipment = Shipment(
    status: Status, maxDownloads: int, currentDownloads: int, expiresAt: int, deletedAt: Option<int>,
    recipientRestricted: bool, passwordProtected: bool)

  datatype Token = Token(
    downloadAccess: bool, hasRecipient: bool, status: TokenStatus, revokedAt: Option<int>,
    usedCount: nat, maxUses: int, expiresAt: int)

  datatype Rows = Rows(shipment: Shipment, tokens: map<TokenId, Token>, successes: nat)

  /** draft, uploading, ready < sent < accessed < expired < deleted, revoked. */
  function Rank(status: Status): nat {
    match status
    case Draft => 0
    case Uploading => 0
    case Ready => 0
    case Sent => 1
    case Accessed => 2
    case Expired => 3
    case Deleted => 4
    case Revoked => 4
  }

  function NewToken(shipment: Shipment): Token {
    Token(true, shipment.recipientRestricted, TokenActive, None, 0, shipment.maxDownloads, shipment.expiresAt)
  }

  function RevokeTokens(tokens: map<TokenId, Token>, now: int): map<TokenId, Token> {
    map t | t in tokens ::
      if tokens[t].status == TokenRevoked then tokens[t]
      else tokens[t].(status := TokenRevoked, revokedAt := if tokens[t].revokedAt.Some? then tokens[t].revokedAt else Some(now))
  }

  function UseToken(t: Token): Token {
    t.(usedCount := t.usedCount + 1, status := if t.usedCount + 1 >= t.maxUses then TokenUsed else t.status)
  }

  predicate Finalizable(s: Shipment) {
    s.status in {Draft, Uploading, Ready}
  }

  predicate Deletable(s: Shipment) {
    s.status !in {Deleted, Revoked}
  }

  predicate Expirable(s: Shipment) {
    s.status !in {Deleted, Expired, Revoked}
  }

  function Finalize(r: Rows, maxDownloads: int, expiresAt: int, restricted: bool, password: bool, ids: set<TokenId>): Rows {
    var s := r.shipment.(status := Sent, maxDownloads := maxDownloads, expiresAt := expiresAt,
                         recipientRestricted := restricted, passwordProtected := password);
    r.(shipment := s, tokens := r.tokens + map t | t in ids :: NewToken(s))
  }

  function Delete(r: Rows, now: int): Rows {
    r.(shipment := r.shipment.(status := Deleted,
                               deletedAt := if r.shipment.deletedAt.Some? then r.shipment.deletedAt else Some(now)),
       tokens := RevokeTokens(r.tokens, now))
  }

  function CountDownload(s: Shipment): Shipment {
    s.(currentDownloads := s.currentDownloads + 1, status := if s.status == Sent then Accessed else s.status)
  }

  datatype Refusal =
    | TokenNotFound | InvalidToken | AccessForbidden | Gone | LimitExceeded
    | Unverified | RateLimited | FileNotFound | StorageFailed

  /** The checks on the token row, in the order of the access service; None is a pass. */
  function CheckToken(t: Token, now: int): Option<Refusal> {
    if !t.downloadAccess then Some(InvalidToken)
    else if t.status == TokenRevoked || t.revokedAt.Some? then Some(AccessForbidden)
    else if t.expiresAt < now then Some(Gone)
    else if t.maxUses > 0 && t.usedCount >= t.maxUses then Some(LimitExceeded)
    else None
  }

  function CheckShipment(s: Shipment, hasRecipient: bool, now: int): Option<Refusal> {
    if s.expiresAt < now then Some(Gone)
    else if s.status !in {Sent, Accessed} then Some(AccessForbidden)
    else if s.recipientRestricted && !hasRecipient then Some(AccessForbidden)
    else None
  }

  /** What lies outside the rows: the grant, the download throttle, the file's shipment, and S3. */
  datatype Surroundings = Surroundings(grantValid: bool, throttleOpen: bool, fileBelongs: bool, presigned: bool)

  /** What one download request does when nothing runs in between. */
  function Download(r: Rows, id: TokenId, now: int, env: Surroundings): (Option<Refusal>, Rows) {
    if id !in r.tokens then (Some(TokenNotFound), r)
    else if CheckToken(r.tokens[id], now).Some? then (CheckToken(r.tokens[id], now), r)
    else if CheckShipment(r.shipment, r.tokens[id].hasRecipient, now).Some? then
      (CheckShipment(r.shipment, r.tokens[id].hasRecipient, now), r)
    else if r.shipment.passwordProtected && !env.grantValid then (Some(Unverified), r)
    else if !env.throttleOpen then (Some(RateLimited), r)
    else if !env.fileBelongs then (Some(FileNotFound), r)
    else if r.successes >= r.shipment.maxDownloads then (Some(LimitExceeded), r)
    else if !env.presigned then (Some(StorageFailed), r)
    else (None, Served(r, id))
  }

  /** The three writes of a served download. */
  function Served(r: Rows, id: TokenId): Rows
    requires id in r.tokens
  {
    Rows(CountDownload(r.shipment), r.tokens[id := UseToken(r.tokens[id])], r.successes + 1)
  }

  // ----- What the transactions write, field by field -----

  /** Sent with what was given; what a finalization does not name is kept. */
  ghost predicate FinalizedAs(s: Shipment, t: Shipment, maxDownloads: int, expiresAt: int, restricted: bool, password: bool) {
    && t.status == Sent && t.maxDownloads == maxDownloads && t.expiresAt == expiresAt
    && t.recipientRestricted == restricted && t.passwordProtected == password
    && t.currentDownloads == s.currentDownloads && t.deletedAt == s.deletedAt
  }

  /** An active token that was never used, with the limit and the deadline of the shipment. */
  ghost predicate Unused(t: Token, maxDownloads: int, expiresAt: int, restricted: bool) {
    && t.downloadAccess && t.hasRecipient == restricted && t.status == TokenActive && t.revokedAt.None?
    && t.usedCount == 0 && t.maxUses == maxDownloads && t.expiresAt == expiresAt
  }

  /** Old tokens are kept, and there is one unused token for each new id. */
  ghost predicate GainsTokens(was: map<TokenId, Token>, tokens: map<TokenId, Token>, ids: set<TokenId>,
                              maxDownloads: int, expiresAt: int, restricted: bool) {
    && tokens.Keys == was.Keys + ids
    && (forall t | t in was && t !in ids :: tokens[t] == was[t])
    && (forall t | t in ids :: Unused(tokens[t], maxDownloads, expiresAt, restricted))
  }

  /** Revoked, at the time of an earlier revocation if there was one; a token revoked before is not written. */
  ghost predicate RevokedAs(was: Token, t: Token, now: int) {
    && t.status == TokenRevoked
    && (was.status == TokenRevoked ==> t.revokedAt == was.revokedAt)
    && (was.status != TokenRevoked ==> t.revokedAt == Some(if was.revokedAt.Some? then was.revokedAt.value else now))
    && t.downloadAccess == was.downloadAccess && t.hasRecipient == was.hasRecipient
    && t.usedCount == was.usedCount && t.maxUses == was.maxUses && t.expiresAt == was.expiresAt
  }

  ghost predicate AllRevoked(was: map<TokenId, Token>, tokens: map<TokenId, Token>, now: int) {
    tokens.Keys == was.Keys && forall t | t in was :: RevokedAs(was[t], tokens[t], now)
  }

  /** One use more; the last one marks the token used, whatever its status was. */
  ghost predicate UsedAs(was: Token, t: Token) {
    && t.usedCount == was.usedCount + 1
    && (was.usedCount + 1 >= was.maxUses ==> t.status == TokenUsed)
    && (was.usedCount + 1 < was.maxUses ==> t.status == was.status)
    && t.downloadAccess == was.downloadAccess && t.hasRecipient == was.hasRecipient && t.revokedAt == was.revokedAt
    && t.maxUses == was.maxUses && t.expiresAt == was.expiresAt
  }

  ghost predicate OnlyStatusAndCount(s: Shipment, t: Shipment) {
    && t.maxDownloads == s.maxDownloads && t.expiresAt == s.expiresAt && t.deletedAt == s.deletedAt
    && t.recipientRestricted == s.recipientRestricted && t.passwordProtected == s.passwordProtected
  }

  /** One download more; only a sent shipment becomes accessed. */
  ghost predicate CountedAs(s: Shipment, t: Shipment) {
    && t.currentDownloads == s.currentDownloads + 1 && OnlyStatusAndCount(s, t)
    && (s.status == Sent ==> t.status == Accessed) && (s.status != Sent ==> t.status == s.status)
  }

  /** Deleted, at the time of an earlier deletion if there was one. */
  ghost predicate DeletedAs(s: Shipment, t: Shipment, now: int) {
    && t.status == Deleted && t.deletedAt == Some(if s.deletedAt.Some? then s.deletedAt.value else now)
    && OnlyStatusAndCount(s, t.(deletedAt := s.deletedAt)) && t.currentDownloads == s.currentDownloads
  }

  ghost predicate UsableToken(t: Token, now: int) {
    && t.downloadAccess && t.status != TokenRevoked && t.revokedAt.None?
    && now <= t.expiresAt && (t.maxUses <= 0 || t.usedCount < t.maxUses)
  }

  ghost predicate OpenShipment(s: Shipment, hasRecipient: bool, now: int) {
    now <= s.expiresAt && 1 <= Rank(s.status) <= 2 && (s.recipientRestricted ==> hasRecipient)
  }

  /**
   * A request is served exactly when its token is usable, the shipment is open to it, a password has been
   * verified if there is one, nothing outside is in the way, and a download is left. A served request adds
   * one to each of the three counters and touches no other token; a refused one changes nothing.
   */
  lemma ServedExactlyWhen(r: Rows, id: TokenId, now: int, env: Surroundings)
    ensures var (refusal, after) := Download(r, id, now, env);
      && (refusal.None? <==>
            && id in r.tokens && UsableToken(r.tokens[id], now) && OpenShipment(r.shipment, r.tokens[id].hasRecipient, now)
            && (r.shipment.passwordProtected ==> env.grantValid) && env.throttleOpen && env.fileBelongs && env.presigned
            && r.successes < r.shipment.maxDownloads)
      && (refusal.None? ==>
            && after.successes == r.successes + 1 && CountedAs(r.shipment, after.shipment) && after.shipment.status == Accessed
            && after.tokens.Keys == r.tokens.Keys && UsedAs(r.tokens[id], after.tokens[id])
            && (forall t | t in r.tokens && t != id :: after.tokens[t] == r.tokens[t]))
      && (refusal.Some? ==> after == r)
  {
    var (refusal, after) := Download(r, id, now, env);
    if refusal.None? { assert after == Served(r, id); }
  }

  /** The request has passed the two rows and the password. */
  ghost predicate LetThrough(r: Rows, id: TokenId, now: int, env: Surroundings) {
    && id in r.tokens && UsableToken(r.tokens[id], now) && OpenShipment(r.shipment, r.tokens[id].hasRecipient, now)
    && (r.shipment.passwordProtected ==> env.grantValid)
  }

  /** The token is one for downloads and was not revoked. */
  ghost predicate Standing(r: Rows, id: TokenId) {
    id in r.tokens && r.tokens[id].downloadAccess && r.tokens[id].status != TokenRevoked && r.tokens[id].revokedAt.None?
  }

  /** Which refusal a request gets: the first thing in its way. What is not listed is AccessForbidden. */
  lemma RefusedFor(r: Rows, id: TokenId, now: int, env: Surroundings)
    ensures var refusal := Download(r, id, now, env).0;
      && (refusal == Some(TokenNotFound) <==> id !in r.tokens)
      && (refusal == Some(InvalidToken) <==> id in r.tokens && !r.tokens[id].downloadAccess)
      && (refusal == Some(Gone) <==>
            && Standing(r, id)
            && (r.tokens[id].expiresAt < now || (UsableToken(r.tokens[id], now) && r.shipment.expiresAt < now)))
      && (refusal == Some(Unverified) <==>
            && id in r.tokens && UsableToken(r.tokens[id], now) && OpenShipment(r.shipment, r.tokens[id].hasRecipient, now)
            && r.shipment.passwordProtected && !env.grantValid)
      && (refusal == Some(RateLimited) <==> LetThrough(r, id, now, env) && !env.throttleOpen)
      && (refusal == Some(FileNotFound) <==> LetThrough(r, id, now, env) && env.throttleOpen && !env.fileBelongs)
      && (refusal == Some(LimitExceeded) <==>
            || (Standing(r, id) && now <= r.tokens[id].expiresAt && 0 < r.tokens[id].maxUses <= r.tokens[id].usedCount)
            || (LetThrough(r, id, now, env) && env.throttleOpen && env.fileBelongs && r.successes >= r.shipment.maxDownloads))
      && (refusal == Some(StorageFailed) <==>
            && LetThrough(r, id, now, env) && env.throttleOpen && env.fileBelongs && r.successes < r.shipment.maxDownloads
            && !env.presigned)
  {
  }

  class ShipmentStore {
    var shipment: Shipment
    var tokens: map<TokenId, Token>
    var successes: nat

    ghost function State(): Rows
      reads this
    {
      Rows(shipment, tokens, successes)
    }

    constructor (maxDownloads: int, expiresAt: int)
      ensures State() == Rows(Shipment(Uploading, maxDownloads, 0, expiresAt, None, true, false), map[], 0)
    {
      shipment := Shipment(Uploading, maxDownloads, 0, expiresAt, None, true, false);
      tokens, successes := map[], 0;
    }

    /**
     * Under the row lock: only a shipment that is not sent yet is finalized. `restOk` says whether the
     * files are all found and the recipients and tokens are inserted; if not, everything is rolled back.
     */
    method FinalizeShipment(maxDownloads: int, expiresAt: int, restricted: bool, password: bool, ids: set<TokenId>, restOk: bool)
      returns (ok: bool)
      requires ids !! tokens.Keys
      modifies this
      ensures ok <==> old(shipment).status in {Draft, Uploading, Ready} && restOk
      ensures ok ==> FinalizedAs(old(shipment), shipment, maxDownloads, expiresAt, restricted, password)
      ensures ok ==> GainsTokens(old(tokens), tokens, ids, maxDownloads, expiresAt, restricted)
      ensures successes == old(successes) && (!ok ==> shipment == old(shipment) && tokens == old(tokens))
      ensures State() == if ok then Finalize(old(State()), maxDownloads, expiresAt, restricted, password, ids) else old(State())
      ensures ok ==> Rank(old(shipment).status) < Rank(shipment.status)
    {
      if shipment.status !in {Draft, Uploading, Ready} { return false; }
      var before := shipment;
      shipment := shipment.(status := Sent, maxDownloads := maxDownloads, expiresAt := expiresAt,
                            recipientRestricted := restricted, passwordProtected := password);
      if !restOk {
        shipment := before;
        return false;
      }
      var s := shipment;
      tokens := tokens + map t | t in ids :: NewToken(s);
      return true;
    }

    method DeleteShipment(now: int) returns (ok: bool)
      modifies this
      ensures ok <==> old(shipment).status !in {Deleted, Revoked}
      ensures ok ==> DeletedAs(old(shipment), shipment, now) && AllRevoked(old(tokens), tokens, now)
      ensures successes == old(successes) && (!ok ==> shipment == old(shipment) && tokens == old(tokens))
      ensures State() == if ok then Delete(old(State()), now) else old(State())
    {
      if shipment.status in {Deleted, Revoked} { return false; }
      shipment := shipment.(status := Deleted, deletedAt := if shipment.deletedAt.Some? then shipment.deletedAt else Some(now));
      tokens := RevokeTokens(tokens, now);
      return true;
    }

    method MarkShipmentExpired() returns (ok: bool)
      modifies this`shipment
      ensures ok <==> old(shipment).status !in {Deleted, Expired, Revoked}
      ensures shipment == if ok then old(shipment).(status := Expired) else old(shipment)
    {
      if shipment.status in {Deleted, Expired, Revoked} { return false; }
      shipment := shipment.(status := Expired);
      return true;
    }

    method RevokeAccessTokens(now: int)
      modifies this`tokens
      ensures AllRevoked(old(tokens), tokens, now)
      ensures tokens == RevokeTokens(old(tokens), now)
    {
      tokens := RevokeTokens(tokens, now);
    }

    method CreateAccessToken(id: TokenId, t: Token)
      requires id !in tokens
      modifies this`tokens
      ensures tokens == old(tokens)[id := t]
    {
      tokens := tokens[id := t];
    }

    method CreateSuccessEvent()
      modifies this`successes
      ensures successes == old(successes) + 1
    {
      successes := successes + 1;
    }

    method UpdateAccessTokenUsage(id: TokenId) returns (ok: bool)
      modifies this`tokens
      ensures ok <==> id in old(tokens)
      ensures ok ==> id in tokens && UsedAs(old(tokens)[id], tokens[id])
      ensures tokens.Keys == old(tokens).Keys && forall t | t in tokens && t != id :: tokens[t] == old(tokens)[t]
      ensures tokens == if ok then old(tokens)[id := UseToken(old(tokens)[id])] else old(tokens)
    {
      if id !in tokens { return false; }
      var t := tokens[id];
      var used := t.usedCount + 1;
      tokens := tokens[id := t.(usedCount := used, status := if used >= t.maxUses then TokenUsed else t.status)];
      return true;
    }

    method IncrementShipmentDownloadCount()
      modifies this`shipment
      ensures CountedAs(old(shipment), shipment)
      ensures shipment == CountDownload(old(shipment))
    {
      shipment := shipment.(currentDownloads := shipment.currentDownloads + 1,
                            status := if shipment.status == Sent then Accessed else shipment.status);
    }
  }

  /** A shipment finalized with a password serves nobody without a valid grant, by any of its tokens at any time. */
  lemma PasswordNeedsGrant(r: Rows, maxDownloads: int, expiresAt: int, restricted: bool, ids: set<TokenId>,
                           id: TokenId, now: int, env: Surroundings)
    requires !env.grantValid
    ensures var t := Finalize(r, maxDownloads, expiresAt, restricted, true, ids);
      Download(t, id, now, env).0.Some? && Download(t, id, now, env).1 == t
  {
    ServedExactlyWhen(Finalize(r, maxDownloads, expiresAt, restricted, true, ids), id, now, env);
  }

  /** GenerateDownloadURL, run with no other request in between. */
  method GenerateDownloadURL(store: ShipmentStore, id: TokenId, now: int, env: Surroundings) returns (refusal: Option<Refusal>)
    modifies store
    ensures refusal == Download(old(store.State()), id, now, env).0
    ensures store.State() == Download(old(store.State()), id, now, env).1
    ensures refusal.None? ==> store.successes == old(store.successes) + 1 <= store.shipment.maxDownloads
    ensures refusal.Some? ==> store.State() == old(store.State())
  {
    if id !in store.tokens { return Some(TokenNotFound); }
    var token := store.tokens[id];
    refusal := CheckToken(token, now);
    if refusal.Some? { return; }
    var shipment := store.shipment;
    refusal := CheckShipment(shipment, token.hasRecipient, now);
    if refusal.Some? { return; }
    var downloadCount := store.successes;
    if shipment.passwordProtected && !env.grantValid { return Some(Unverified); }
    if !env.throttleOpen { return Some(RateLimited); }
    if !env.fileBelongs { return Some(FileNotFound); }
    if downloadCount >= shipment.maxDownloads { return Some(LimitExceeded); }
    if !env.presigned { return Some(StorageFailed); }
    store.CreateSuccessEvent();
    var _ := store.UpdateAccessTokenUsage(id);
    store.IncrementShipmentDownloadCount();
    return None;
  }

  // ----- Requests one after another -----

  datatype Query = Query(id: TokenId, at: int)

  /** Requests in sequence, with any tokens at any times, and nothing in their surroundings in the way. */
  function DownloadAll(r: Rows, qs: seq<Query>): Rows {
    if qs == [] then r
    else
      var q := qs[|qs| - 1];
      Download(DownloadAll(r, qs[..|qs| - 1]), q.id, q.at, Surroundings(true, true, true, true)).1
  }

  /** A token made for the shipment as it now is, not revoked, and used no more often than was downloaded. */
  ghost predicate InStepToken(t: Token, s: Shipment, successes: nat) {
    && t.downloadAccess && t.revokedAt.None? && t.status != TokenRevoked && t.expiresAt == s.expiresAt
    && t.maxUses == s.maxDownloads && t.usedCount <= successes && (s.recipientRestricted ==> t.hasRecipient)
  }

  /** A sent shipment with all its tokens in step. */
  ghost predicate InStep(r: Rows) {
    && 1 <= Rank(r.shipment.status) <= 2 && 0 < r.shipment.maxDownloads && r.successes <= r.shipment.maxDownloads
    && forall t | t in r.tokens :: InStepToken(r.tokens[t], r.shipment, r.successes)
  }

  /** Finalizing a shipment that has no tokens yet leaves it so. */
  lemma FinalizedInStep(r: Rows, maxDownloads: int, expiresAt: int, restricted: bool, password: bool, ids: set<TokenId>)
    requires r.tokens == map[] && r.successes == 0 && maxDownloads >= 1
    ensures InStep(Finalize(r, maxDownloads, expiresAt, restricted, password, ids))
    ensures Finalize(r, maxDownloads, expiresAt, restricted, password, ids).tokens.Keys == ids
  {
  }

  /** One request is served if a download is left, and refused otherwise. */
  lemma InStepDownload(r: Rows, q: Query)
    requires InStep(r) && q.id in r.tokens && q.at <= r.shipment.expiresAt
    ensures var after := Download(r, q.id, q.at, Surroundings(true, true, true, true)).1;
      && InStep(after) && after.tokens.Keys == r.tokens.Keys && after.shipment.expiresAt == r.shipment.expiresAt
      && after.shipment.maxDownloads == r.shipment.maxDownloads
      && after == if r.successes < r.shipment.maxDownloads then Served(r, q.id) else r
  {
    assert InStepToken(r.tokens[q.id], r.shipment, r.successes);
  }

  /**
   * One after another, with any of the shipment's tokens in any order and at any time before its deadline,
   * exactly maxDownloads requests are served and the rest are refused.
   */
  lemma {:induction false} SequentialDownloads(r: Rows, qs: seq<Query>)
    requires InStep(r) && forall i | 0 <= i < |qs| :: qs[i].id in r.tokens && qs[i].at <= r.shipment.expiresAt
    ensures var after := DownloadAll(r, qs);
      && InStep(after) && after.tokens.Keys == r.tokens.Keys && after.shipment.expiresAt == r.shipment.expiresAt
      && after.shipment.maxDownloads == r.shipment.maxDownloads
      && after.successes == Min(r.successes + |qs|, r.shipment.maxDownloads)
      && after.shipment.currentDownloads - r.shipment.currentDownloads == after.successes - r.successes
    decreases |qs|
  {
    if qs == [] {
    } else {
      var n := |qs| - 1;
      SequentialDownloads(r, qs[..n]);
      InStepDownload(DownloadAll(r, qs[..n]), qs[n]);
    }
  }
}
