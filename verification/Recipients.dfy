/**
 * What a shipment is sent to: addresses are normalized, deduplicated and sorted, each is paired with a
 * token, and the finalizing transaction finds the recipient of every token again.
 * `norm` stands for the mail address parser (None is a parse error) and `trim` for strings.TrimSpace.
 */
module Recipients {
  import opened Common
  import opened StringOrder
  import UploadSessions

  const MAX_RECIPIENTS := 20

  datatype RecipientParams = RecipientParams(email: string, normalized: string)

  datatype TokenParams = TokenParams(normalized: string, secret: string, recipient: Option<nat>)

  datatype Recipient = Recipient(id: nat, normalized: string)

  datatype Normalized =
    | Lists(recipients: seq<RecipientParams>, tokens: seq<TokenParams>)
    | InvalidRecipients
    | RecipientsLimitExceeded

  // ----- Sorted lists -----

  ghost predicate StrictlySorted(s: seq<string>) {
    forall i, j | 0 <= i < j < |s| :: Before(s[i], s[j])
  }

  ghost function Elements(s: seq<string>): set<string> {
    set x | x in s
  }

  lemma HeadIsLeast(s: seq<string>, x: string)
    requires StrictlySorted(s) && x in Elements(s)
    ensures s[0] == x || Before(s[0], x)
  {
    var i :| 0 <= i < |s| && s[i] == x;
    if i > 0 { assert Before(s[0], s[i]); }
  }

  lemma SortedIsDistinct(s: seq<string>)
    requires StrictlySorted(s)
    ensures forall i, j | 0 <= i < j < |s| :: s[i] != s[j]
  {
    forall i, j | 0 <= i < j < |s| ensures s[i] != s[j] { BeforeIsTotal(s[i], s[j]); }
  }

  lemma ElementsOfTail(s: seq<string>)
    ensures Elements(s) == {} <==> s == []
    ensures s != [] && StrictlySorted(s) ==> s[0] in Elements(s) && Elements(s[1..]) == Elements(s) - {s[0]}
  {
    if s != [] {
      assert s == [s[0]] + s[1..] && s[0] in Elements(s);
      if StrictlySorted(s) { SortedIsDistinct(s); }
    }
  }

  /** There is one sorted list of a set: the order of the inputs and of the map cannot show. */
  lemma {:induction false} SortedIsUnique(a: seq<string>, b: seq<string>)
    requires StrictlySorted(a) && StrictlySorted(b) && Elements(a) == Elements(b)
    ensures a == b
    decreases |a|
  {
    ElementsOfTail(a);
    ElementsOfTail(b);
    if a == [] {
    } else {
      HeadIsLeast(a, b[0]);
      HeadIsLeast(b, a[0]);
      BeforeIsTotal(a[0], b[0]);
      SortedIsUnique(a[1..], b[1..]);
      assert a == [a[0]] + a[1..] && b == [b[0]] + b[1..];
    }
  }

  /** Where a key that is not there yet belongs. */
  method Position(s: seq<string>, key: string) returns (p: nat)
    requires StrictlySorted(s) && key !in s
    ensures p <= |s|
    ensures forall i | 0 <= i < p :: Before(s[i], key)
    ensures forall i | p <= i < |s| :: Before(key, s[i])
  {
    p := 0;
    while p < |s| && Before(s[p], key)
      invariant p <= |s|
      invariant forall i | 0 <= i < p :: Before(s[i], key)
    {
      p := p + 1;
    }
    if p < |s| {
      BeforeIsTotal(s[p], key);
      forall i | p <= i < |s| ensures Before(key, s[i]) {
        if i > p { BeforeIsTransitive(key, s[p], s[i]); }
      }
    }
  }

  /** sort.Strings on the keys of a map, which come in any order. */
  method SortedKeys(m: map<string, string>) returns (keys: seq<string>)
    ensures StrictlySorted(keys) && Elements(keys) == m.Keys
  {
    keys := [];
    var left := m.Keys;
    while left != {}
      invariant StrictlySorted(keys) && Elements(keys) == m.Keys - left && left <= m.Keys
      decreases |left|
    {
      var k :| k in left;
      assert k !in Elements(keys);
      var p := Position(keys, k);
      InsertKeepsSorted(keys, p, k);
      keys := keys[..p] + [k] + keys[p..];
      left := left - {k};
    }
  }

  lemma InsertKeepsSorted(s: seq<string>, p: nat, key: string)
    requires StrictlySorted(s) && p <= |s|
    requires forall i | 0 <= i < p :: Before(s[i], key)
    requires forall i | p <= i < |s| :: Before(key, s[i])
    ensures StrictlySorted(s[..p] + [key] + s[p..]) && Elements(s[..p] + [key] + s[p..]) == Elements(s) + {key}
  {
    var t := s[..p] + [key] + s[p..];
    assert forall i | 0 <= i < |s| :: s[i] == if i < p then t[i] else t[i + 1];
    forall x ensures x in Elements(t) <==> x in Elements(s) + {key} {
      assert t[p] == key;
    }
  }

  // ----- Normalizing -----

  ghost predicate AllParse(inputs: seq<string>, norm: string -> Option<string>) {
    forall i | 0 <= i < |inputs| :: norm(inputs[i]).Some?
  }

  ghost function Keys(inputs: seq<string>, norm: string -> Option<string>): set<string> {
    set i | 0 <= i < |inputs| && norm(inputs[i]).Some? :: norm(inputs[i]).value
  }

  ghost predicate IsFirst(inputs: seq<string>, norm: string -> Option<string>, key: string, i: nat) {
    i < |inputs| && norm(inputs[i]) == Some(key) && forall j | 0 <= j < i :: norm(inputs[j]) != Some(key)
  }

  /** `email` is how the address `key` was first spelled. */
  ghost predicate Spelled(inputs: seq<string>, norm: string -> Option<string>, trim: string -> string, key: string, email: string) {
    exists i: nat :: IsFirst(inputs, norm, key, i) && email == trim(inputs[i])
  }

  /** Each key with the first spelling of it. */
  ghost predicate FirstSpellings(m: map<string, string>, inputs: seq<string>, norm: string -> Option<string>, trim: string -> string) {
    && m.Keys == Keys(inputs, norm)
    && forall k | k in m :: Spelled(inputs, norm, trim, k, m[k])
  }

  lemma FirstOfLonger(inputs: seq<string>, norm: string -> Option<string>, key: string, i: nat, n: nat)
    requires n < |inputs| && IsFirst(inputs[..n], norm, key, i)
    ensures IsFirst(inputs[..n + 1], norm, key, i)
  {
  }

  lemma OneMoreSpelling(m: map<string, string>, inputs: seq<string>, n: nat, norm: string -> Option<string>, trim: string -> string)
    requires n < |inputs| && norm(inputs[n]).Some? && FirstSpellings(m, inputs[..n], norm, trim)
    ensures var key := norm(inputs[n]).value;
      FirstSpellings(if key in m then m else m[key := trim(inputs[n])], inputs[..n + 1], norm, trim)
  {
    var key := norm(inputs[n]).value;
    var m' := if key in m then m else m[key := trim(inputs[n])];
    var xs, ys := inputs[..n], inputs[..n + 1];
    assert ys == xs + [inputs[n]];
    forall k ensures k in m' <==> k in Keys(ys, norm) {
      assert ys[n] == inputs[n];
      assert forall i | 0 <= i < n :: ys[i] == xs[i];
    }
    forall k | k in m' ensures Spelled(ys, norm, trim, k, m'[k]) {
      if k in m {
        var i: nat :| IsFirst(xs, norm, k, i) && m[k] == trim(xs[i]);
        FirstOfLonger(inputs, norm, k, i, n);
        assert ys[i] == xs[i];
      } else {
        forall j | 0 <= j < n ensures norm(ys[j]) != Some(k) {
          assert xs[j] == ys[j];
          if norm(xs[j]).Some? { assert norm(xs[j]).value in Keys(xs, norm); }
        }
        assert IsFirst(ys, norm, k, n);
      }
    }
  }

  ghost function KeysOf(recipients: seq<RecipientParams>): (keys: seq<string>)
    ensures |keys| == |recipients| && forall k | 0 <= k < |keys| :: keys[k] == recipients[k].normalized
  {
    seq(|recipients|, k requires 0 <= k < |recipients| => recipients[k].normalized)
  }

  /** The recipients, in the order of their keys, each with the first spelling, and one token each. */
  ghost predicate IsNormalized(inputs: seq<string>, norm: string -> Option<string>, trim: string -> string,
                               secrets: nat -> string, recipients: seq<RecipientParams>, tokens: seq<TokenParams>) {
    && StrictlySorted(KeysOf(recipients)) && Elements(KeysOf(recipients)) == Keys(inputs, norm)
    && (forall k | 0 <= k < |recipients| :: Spelled(inputs, norm, trim, recipients[k].normalized, recipients[k].email))
    && |tokens| == |recipients|
    && forall k | 0 <= k < |tokens| :: tokens[k] == TokenParams(recipients[k].normalized, secrets(k), None)
  }

  /** The first loop: None when some address does not parse. */
  method CollectSpellings(inputs: seq<string>, norm: string -> Option<string>, trim: string -> string)
    returns (r: Option<map<string, string>>)
    ensures r.Some? <==> AllParse(inputs, norm)
    ensures r.Some? ==> FirstSpellings(r.value, inputs, norm, trim)
  {
    var m: map<string, string> := map[];
    for n := 0 to |inputs|
      invariant FirstSpellings(m, inputs[..n], norm, trim)
      invariant forall i | 0 <= i < n :: norm(inputs[i]).Some?
    {
      var key := norm(inputs[n]);
      if key.None? { return None; }
      OneMoreSpelling(m, inputs, n, norm, trim);
      if key.value !in m {
        m := m[key.value := trim(inputs[n])];
      }
    }
    assert inputs[..|inputs|] == inputs;
    return Some(m);
  }

  /** The second loop, over the sorted keys. */
  method PairTokens(m: map<string, string>, keys: seq<string>, secrets: nat -> string)
    returns (recipients: seq<RecipientParams>, tokens: seq<TokenParams>)
    requires Elements(keys) == m.Keys
    ensures |recipients| == |tokens| == |keys|
    ensures forall k | 0 <= k < |keys| :: keys[k] in m && recipients[k] == RecipientParams(m[keys[k]], keys[k])
    ensures forall k | 0 <= k < |keys| :: tokens[k] == TokenParams(keys[k], secrets(k), None)
  {
    recipients, tokens := [], [];
    for i := 0 to |keys|
      invariant |recipients| == |tokens| == i
      invariant forall k | 0 <= k < i :: keys[k] in m && recipients[k] == RecipientParams(m[keys[k]], keys[k])
      invariant forall k | 0 <= k < i :: tokens[k] == TokenParams(keys[k], secrets(k), None)
    {
      assert keys[i] in Elements(keys);
      recipients := recipients + [RecipientParams(m[keys[i]], keys[i])];
      tokens := tokens + [TokenParams(keys[i], secrets(i), None)];
    }
  }

  /** The part of validateAndNormalize for recipient_restricted; `secrets` are the generated tokens. */
  method NormalizeRecipients(inputs: seq<string>, norm: string -> Option<string>, trim: string -> string, secrets: nat -> string)
    returns (r: Normalized)
    ensures r.Lists? <==> 0 < |inputs| <= MAX_RECIPIENTS && AllParse(inputs, norm)
    ensures r.RecipientsLimitExceeded? <==> |inputs| > MAX_RECIPIENTS
    ensures r.Lists? ==> IsNormalized(inputs, norm, trim, secrets, r.recipients, r.tokens)
  {
    if |inputs| == 0 { return InvalidRecipients; }
    if |inputs| > MAX_RECIPIENTS { return RecipientsLimitExceeded; }
    var collected := CollectSpellings(inputs, norm, trim);
    if collected.None? { return InvalidRecipients; }
    var keys := SortedKeys(collected.value);
    var recipients, tokens := PairTokens(collected.value, keys, secrets);
    assert KeysOf(recipients) == keys;
    assert forall k | 0 <= k < |recipients| :: keys[k] in collected.value && recipients[k].normalized == keys[k];
    return Lists(recipients, tokens);
  }

  /** Reordering or respelling the inputs changes no normalized address and no position. */
  lemma OrderDoesNotMatter(xs: seq<string>, ys: seq<string>, norm: string -> Option<string>, trim: string -> string,
                           secrets: nat -> string, secrets': nat -> string,
                           rs: seq<RecipientParams>, ts: seq<TokenParams>, rs': seq<RecipientParams>, ts': seq<TokenParams>)
    requires IsNormalized(xs, norm, trim, secrets, rs, ts) && IsNormalized(ys, norm, trim, secrets', rs', ts')
    requires Keys(xs, norm) == Keys(ys, norm)
    ensures |rs| == |rs'| && forall k | 0 <= k < |rs| :: rs[k].normalized == rs'[k].normalized
  {
    SortedIsUnique(KeysOf(rs), KeysOf(rs'));
  }

  // ----- Finding the recipient again -----

  /** The rows INSERT returns: the same addresses under the database's ids. */
  ghost predicate CreatedFrom(rows: seq<Recipient>, recipients: seq<RecipientParams>) {
    && |rows| == |recipients|
    && (forall k | 0 <= k < |rows| :: rows[k].normalized == recipients[k].normalized)
    && forall i, j | 0 <= i < j < |rows| :: rows[i].id != rows[j].id
  }

  /** The last row of an address. */
  ghost predicate LastAt(rows: seq<Recipient>, key: string, i: int) {
    && 0 <= i < |rows| && rows[i].normalized == key
    && forall j | i < j < |rows| :: rows[j].normalized != key
  }

  ghost predicate MapOf(m: map<string, nat>, rows: seq<Recipient>) {
    && (forall k | 0 <= k < |rows| :: rows[k].normalized in m)
    && (forall key | key in m :: exists k :: LastAt(rows, key, k) && rows[k].id == m[key])
  }

  ghost predicate Missing(rows: seq<Recipient>, key: string) {
    key != "" && forall i | 0 <= i < |rows| :: rows[i].normalized != key
  }

  /** The map from address to id; None is ErrConflict. */
  method AttachRecipients(rows: seq<Recipient>, tokens: seq<TokenParams>) returns (r: Option<seq<TokenParams>>)
    ensures r.None? <==> exists k :: 0 <= k < |tokens| && Missing(rows, tokens[k].normalized)
    ensures r.Some? ==> |r.value| == |tokens|
    ensures r.Some? ==> forall k | 0 <= k < |tokens| :: Attached(rows, tokens[k], r.value[k])
  {
    var recipientMap: map<string, nat> := map[];
    for i := 0 to |rows|
      invariant MapOf(recipientMap, rows[..i])
    {
      var key := rows[i].normalized;
      MapOneMore(recipientMap, rows, i);
      recipientMap := recipientMap[key := rows[i].id];
    }
    assert rows[..|rows|] == rows;
    var done := [];
    for k := 0 to |tokens|
      invariant |done| == k
      invariant forall j | 0 <= j < k :: Attached(rows, tokens[j], done[j])
      invariant forall j | 0 <= j < k :: !Missing(rows, tokens[j].normalized)
    {
      var key := tokens[k].normalized;
      if key != "" {
        if key !in recipientMap {
          return None;
        }
        done := done + [tokens[k].(recipient := Some(recipientMap[key]))];
      } else {
        done := done + [tokens[k]];
      }
    }
    return Some(done);
  }

  /** The token of an address goes to the last row of that address, and a token without one is left alone. */
  ghost predicate Attached(rows: seq<Recipient>, t: TokenParams, t': TokenParams) {
    if t.normalized == "" then t' == t
    else exists i :: LastAt(rows, t.normalized, i) && t' == t.(recipient := Some(rows[i].id))
  }

  lemma MapOneMore(m: map<string, nat>, rows: seq<Recipient>, i: nat)
    requires i < |rows| && MapOf(m, rows[..i])
    ensures MapOf(m[rows[i].normalized := rows[i].id], rows[..i + 1])
  {
    var m' := m[rows[i].normalized := rows[i].id];
    var xs, ys := rows[..i], rows[..i + 1];
    forall key | key in m' ensures exists k :: LastAt(ys, key, k) && ys[k].id == m'[key] {
      if key == rows[i].normalized {
        assert LastAt(ys, key, i);
      } else {
        var k :| LastAt(xs, key, k) && xs[k].id == m[key];
        assert ys[k] == xs[k] && forall j | k < j < i :: ys[j] == xs[j];
        assert LastAt(ys, key, k);
      }
    }
    assert forall k | 0 <= k < |ys| :: ys[k].normalized == (if k < i then xs[k].normalized else rows[i].normalized);
  }

  lemma RowsAreDistinct(rows: seq<Recipient>, recipients: seq<RecipientParams>)
    requires StrictlySorted(KeysOf(recipients)) && CreatedFrom(rows, recipients)
    ensures forall i, j | 0 <= i < |rows| && 0 <= j < |rows| && rows[i].normalized == rows[j].normalized :: i == j
  {
    var keys := KeysOf(recipients);
    SortedIsDistinct(keys);
    assert forall i | 0 <= i < |rows| :: rows[i].normalized == keys[i];
  }

  lemma NoKeyIsEmpty(recipients: seq<RecipientParams>, keys: set<string>)
    requires Elements(KeysOf(recipients)) == keys && "" !in keys
    ensures forall k | 0 <= k < |recipients| :: recipients[k].normalized != ""
  {
    forall k | 0 <= k < |recipients| ensures recipients[k].normalized != "" {
      assert KeysOf(recipients)[k] in Elements(KeysOf(recipients));
    }
  }

  /**
   * The lookup inside the finalizing transaction never misses, and recipients and tokens pair one to one:
   * token k belongs to recipient k. The parser never yields an empty address.
   */
  lemma EachRecipientGetsOneToken(inputs: seq<string>, norm: string -> Option<string>, trim: string -> string, secrets: nat -> string,
                                  recipients: seq<RecipientParams>, tokens: seq<TokenParams>, rows: seq<Recipient>)
    requires IsNormalized(inputs, norm, trim, secrets, recipients, tokens) && CreatedFrom(rows, recipients)
    requires "" !in Keys(inputs, norm)
    ensures forall k | 0 <= k < |tokens| :: tokens[k].normalized != "" && rows[k].normalized == tokens[k].normalized
    ensures forall k, t | 0 <= k < |tokens| && Attached(rows, tokens[k], t) :: t.recipient == Some(rows[k].id)
  {
    RowsAreDistinct(rows, recipients);
    NoKeyIsEmpty(recipients, Keys(inputs, norm));
  }

  // ----- The file ids -----

  /** Each id once, where it first came. */
  function Dedup(ids: seq<nat>): seq<nat> {
    if ids == [] then []
    else
      var init, last := Dedup(ids[..|ids| - 1]), ids[|ids| - 1];
      if last in init then init else init + [last]
  }

  method DedupeUUIDs(ids: seq<nat>) returns (result: seq<nat>)
    ensures result == Dedup(ids)
  {
    var seen: set<nat> := {};
    result := [];
    for i := 0 to |ids|
      invariant result == Dedup(ids[..i])
      invariant forall x :: x in seen <==> x in result
    {
      assert ids[..i + 1][..i] == ids[..i] && ids[..i + 1][i] == ids[i];
      if ids[i] !in seen {
        seen := seen + {ids[i]};
        result := result + [ids[i]];
      }
    }
    assert ids[..|ids|] == ids;
  }

  lemma {:induction false} DedupKeepsElements(ids: seq<nat>)
    ensures forall x :: x in Dedup(ids) <==> x in ids
    ensures forall i, j | 0 <= i < j < |Dedup(ids)| :: Dedup(ids)[i] != Dedup(ids)[j]
  {
    if ids == [] {
    } else {
      DedupKeepsElements(ids[..|ids| - 1]);
      assert ids == ids[..|ids| - 1] + [ids[|ids| - 1]];
    }
  }

  /** The ids come in the order of their first occurrence. */
  lemma {:induction false} DedupKeepsOrder(ids: seq<nat>, p: nat)
    requires p <= |ids|
    ensures Dedup(ids[..p]) <= Dedup(ids)
  {
    if p < |ids| {
      var init := ids[..|ids| - 1];
      assert init[..p] == ids[..p];
      DedupKeepsOrder(init, p);
    } else {
      assert ids[..p] == ids;
    }
  }

  /** How many rows `WHERE f.id = ANY(ids)` returns, the sessions of each file joined in from the left. */
  ghost function JoinedRows(r: UploadSessions.Rows, ids: seq<nat>): nat {
    if ids == [] then 0
    else
      var id := ids[|ids| - 1];
      JoinedRows(r, ids[..|ids| - 1]) + (if id in r.files then Max(1, |UploadSessions.Joined(r, id)|) else 0)
  }

  /** With one session a file, comparing row counts is a test that every requested file exists. */
  lemma {:induction false} CountsFindMissingFiles(r: UploadSessions.Rows, ids: seq<nat>)
    requires UploadSessions.RowsInv(r)
    ensures JoinedRows(r, ids) <= |ids|
    ensures JoinedRows(r, ids) == |ids| <==> forall i | 0 <= i < |ids| :: ids[i] in r.files
  {
    if ids == [] {
    } else {
      CountsFindMissingFiles(r, ids[..|ids| - 1]);
    }
  }
}
