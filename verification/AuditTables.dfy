/**
 * What the two audit tables accept of what Prepare signs: their CHECK constraints and column widths, with
 * the length of the details as the database writes them.
 */
module AuditTables {
  import opened Common
  import opened AuditIntegrity
  import opened StringOrder

  // ----- The length of stored details -----

  /** A character as the text form of jsonb writes it. */
  function StoredWidth(c: char): nat {
    if ShortEscape(c) then 2 else if c < ' ' then 6 else Utf8Width(c)
  }

  /** The text of a stored object, with one space after each colon and comma; the order does not matter. */
  function StoredLength(ms: seq<Member>): nat {
    2 + MembersLength(Marshal(Unmarshal(ms)), StoredWidth, 1)
  }

  /** What json.Marshal writes more for a character. */
  function Excess(c: char): nat {
    if c in {'<', '>', '&'} then 5 else if c in {'\U{2028}', '\U{2029}'} then 3 else 0
  }

  function MembersExcess(ms: seq<Member>): nat {
    if ms == [] then 0
    else TextWidth(ms[0].key, Excess) + (if ms[0].value.Text? then TextWidth(ms[0].value.s, Excess) else 0) + MembersExcess(ms[1..])
  }

  function Spaces(n: nat): nat {
    if n == 0 then 0 else 2 * n - 1
  }

  lemma {:induction false} WidthsDiffer(s: string)
    ensures TextWidth(s, PrintedWidth) == TextWidth(s, StoredWidth) + TextWidth(s, Excess)
  {
    if s == [] {
    } else {
      WidthsDiffer(s[1..]);
    }
  }

  /** Printed and stored text of the same members. */
  lemma {:induction false} LengthsDiffer(ms: seq<Member>)
    ensures MembersLength(ms, PrintedWidth, 0) + Spaces(|ms|) == MembersLength(ms, StoredWidth, 1) + MembersExcess(ms)
  {
    if ms == [] {
    } else {
      WidthsDiffer(ms[0].key);
      if ms[0].value.Text? { WidthsDiffer(ms[0].value.s); }
      LengthsDiffer(ms[1..]);
    }
  }

  lemma {:induction false} MarshalCard(m: map<string, Value>)
    ensures |Marshal(m)| == |m|
    decreases |m|
  {
    if m == map[] {
    } else {
      MarshalCard(m - {Least(m.Keys)});
    }
  }

  lemma DetailsLength(details: map<string, string>)
    ensures var ms := DetailsOf(details).members;
      PrintedLength(ms) + Spaces(|details|) == StoredLength(ms) + MembersExcess(ms)
  {
    var m := map k | k in details :: Text(details[k]);
    assert m.Keys == details.Keys;
    MarshalCard(m);
    UnmarshalMarshal(m);
    LengthsDiffer(Marshal(m));
  }

  // ----- What fits -----

  /**
   * What the functions promise: a name has 3 to 100 characters, a cut is no longer than asked, and a
   * keyed SHA-256 has 32 bytes.
   */
  ghost predicate TextsLawful(t: Texts) {
    && (forall key, domain, s :: |t.keyedHash(key, domain, s)| == 32)
    && (forall s | t.isName(s) :: 3 <= |s| <= 100)
    && (forall s, n: nat :: |t.cut(s, n)| <= n)
    && (forall s :: |t.trim(s)| <= |s|)
  }

  ghost predicate Within(s: Option<string>, max: nat) {
    s.Some? ==> 0 < |s.value| <= max
  }

  /** The CHECK constraints and column widths of the two tables. */
  ghost predicate FitsTheTable(t: Texts, s: Signed) {
    IsHex64(s.hmac) && EventFits(t, s.event)
  }

  ghost predicate EventFits(t: Texts, e: Event) {
    && (e.clientIpHmac.Some? ==> IsHex64(e.clientIpHmac.value)) && (e.userAgentHmac.Some? ==> IsHex64(e.userAgentHmac.value))
    && t.isName(e.eventType) && KnownLabels(e.severity, e.outcome, e.actorType, e.sourceService)
    && (e.actorType == "user" ==> e.actorUserId.Some?)
    && (e.resourceType.Some? ==> t.isName(e.resourceType.value) && |e.resourceType.value| <= 50)
    && Within(e.requestId, 100) && Within(e.httpMethod, 10) && Within(e.routePattern, 200)
    && (e.statusCode.Some? ==> 100 <= e.statusCode.value <= 599)
    && e.details.Object? && StoredLength(e.details.members) <= MAX_DETAILS && |e.keyId| <= 50
  }

  lemma OptionalFits(t: Texts, s: string, max: nat)
    requires TextsLawful(t)
    ensures Within(OptionalText(t, TrimToLength(t, s, max)), max)
  {
    var cut := TrimToLength(t, s, max);
    assert |cut| <= max;
    assert |t.trim(cut)| <= |cut|;
  }

  lemma ParamsFit(c: Config, t: Texts, i: Input, id: Uuid, now: int)
    requires TextsLawful(t) && (forall s | t.isName(s) :: t.trim(s) == s) && ValidInput(t, Normalized(t, i)) && |KeyId(c, t)| <= 50
    ensures var e := Params(c, t, i, id, now);
      EventFits(t, e)
      <==> (e.resourceType.Some? ==> |e.resourceType.value| <= 50) && StoredLength(e.details.members) <= MAX_DETAILS
  {
    OptionalFits(t, i.requestId, 100);
    OptionalFits(t, t.upper(i.httpMethod), 10);
    OptionalFits(t, i.routePattern, 200);
    ResourceTypeIsAName(t, Normalized(t, i).resourceType);
    ClientHashIsHex(t, c.secret, "client_ip", Normalized(t, i).clientIp);
    ClientHashIsHex(t, c.secret, "user_agent", Normalized(t, i).userAgent);
  }

  lemma ClientHashIsHex(t: Texts, secret: Bytes, domain: string, s: string)
    requires TextsLawful(t)
    ensures var h := OptionalHMAC(t, secret, domain, s);
      h.Some? ==> IsHex64(h.value)
  {
    HexDigits(t.keyedHash(secret, domain, t.trim(s)));
  }

  /**
   * The tables accept what Prepare signs except for two limits that are tighter there: a resource type of
   * more than 50 characters, and details that outgrow the limit when the database writes two spaces more
   * for each member but one, less what only json.Marshal escapes.
   */
  lemma PreparedFitsTheTable(c: Config, t: Texts, mac: Mac, i: Input, id: Uuid, now: int)
    requires TextsLawful(t) && (forall s | t.isName(s) :: t.trim(s) == s)
    requires forall key, form :: |mac(key, form)| == 32
    ensures var r := Prepare(c, t, mac, i, id, now);
      var ms := DetailsOf(i.details).members;
      r.Some? ==>
        (FitsTheTable(t, r.value)
         <==> (r.value.event.resourceType.Some? ==> |r.value.event.resourceType.value| <= 50)
              && PrintedLength(ms) + Spaces(|i.details|) <= MAX_DETAILS + MembersExcess(ms))
  {
    var r := Prepare(c, t, mac, i, id, now);
    if r.Some? {
      ParamsFit(c, t, i, id, now);
      SignatureIsHex(mac, c.secret, r.value.event);
      DetailsLength(i.details);
    }
  }

  lemma SignatureIsHex(mac: Mac, secret: Bytes, e: Event)
    requires forall key, form :: |mac(key, form)| == 32
    ensures var h := IntegrityHMAC(mac, secret, e);
      h.Some? ==> IsHex64(h.value)
  {
    var details := CanonicalRawJSON(e.details);
    if details.Some? { HexDigits(mac(secret, FormOf(e, details.value))); }
  }

  lemma ResourceTypeIsAName(t: Texts, s: string)
    requires TextsLawful(t) && (s != "" ==> t.isName(s) && t.trim(s) == s)
    ensures OptionalText(t, s).Some? ==> t.isName(OptionalText(t, s).value)
  {
    if s == "" { assert |t.trim(s)| <= 0; }
  }

  // ----- Both limits are really tighter -----

  predicate NameChar(c: char) {
    'a' <= c <= 'z' || '0' <= c <= '9' || c in {'_', '.', '-'}
  }

  /** The pattern of names. */
  predicate IsName(s: string) {
    && 3 <= |s| <= 100 && ('a' <= s[0] <= 'z' || '0' <= s[0] <= '9')
    && forall i | 0 <= i < |s| :: NameChar(s[i])
  }

  function ZeroHash(key: Bytes, domain: string, s: string): Bytes {
    seq(32, _ => 0)
  }

  /** Texts that are trimmed and in their case already. */
  function PlainTexts(): Texts {
    Texts(s => s, s => s, s => s, (s: string, n: nat) => if |s| <= n then s else s[..n], IsName, ZeroHash)
  }

  function Copies(c: char, n: nat): (s: string)
    ensures |s| == n && forall i | 0 <= i < n :: s[i] == c
  {
    if n == 0 then [] else [c] + Copies(c, n - 1)
  }

  lemma {:induction false} CopiesWidth(c: char, n: nat, w: char -> nat)
    ensures TextWidth(Copies(c, n), w) == n * w(c)
  {
    if n == 0 {
    } else {
      CopiesWidth(c, n - 1, w);
    }
  }

  /** An event of an anonymous actor with nothing optional but the two given parts. */
  function SomeInput(resourceType: string, details: map<string, string>): Input {
    Input("login", "info", "success", "anonymous", None, None, resourceType, None, "", "api", "", "", 0, "", "", details)
  }

  lemma SomeInputIsPrepared(c: Config, mac: Mac, resourceType: string, details: map<string, string>, id: Uuid, now: int)
    requires |c.secret| >= 32 && 0 < |c.keyId| <= 50
    requires (resourceType == "" || IsName(resourceType)) && ValidDetails(PlainTexts(), details)
    ensures Prepare(c, PlainTexts(), mac, SomeInput(resourceType, details), id, now).Some?
  {
    var t, i := PlainTexts(), SomeInput(resourceType, details);
    assert t.isName("login") == IsName("login") && t.isName(resourceType) == IsName(resourceType);
    assert Normalized(t, i) == i;
  }

  /** A resource type of 51 characters is prepared, and refused by the tables. */
  lemma LongResourceType(c: Config, mac: Mac, id: Uuid, now: int)
    requires |c.secret| >= 32 && 0 < |c.keyId| <= 50
    ensures var r := Prepare(c, PlainTexts(), mac, SomeInput(Copies('a', 51), map[]), id, now);
      r.Some? && !FitsTheTable(PlainTexts(), r.value)
  {
    assert Marshal(map[]) == [];
    SomeInputIsPrepared(c, mac, Copies('a', 51), map[], id, now);
  }

  /** Three members whose keys have one, one and five bytes. */
  function ThreeMembers(x: string, y: string): seq<Member> {
    [Member("a", Text(x)), Member("b", Text(x)), Member("ccccc", Text(y))]
  }

  function ThreeDetails(x: string, y: string): map<string, string> {
    map["a" := x, "b" := x, "ccccc" := y]
  }

  lemma ThreeMembersAre(x: string, y: string)
    ensures DetailsOf(ThreeDetails(x, y)).members == ThreeMembers(x, y)
  {
    var ms, details := ThreeMembers(x, y), ThreeDetails(x, y);
    assert ms[..2] == [ms[0], ms[1]] && ms[..2][..1] == [ms[0]] && ms[..1][..0] == [];
    assert Unmarshal(ms[..1]) == map["a" := ms[0].value];
    assert Unmarshal(ms[..2]) == map["a" := ms[0].value, "b" := ms[1].value];
    assert Unmarshal(ms) == map k | k in details :: Text(details[k]);
    SortedFormIsUnique(ms);
  }

  lemma ShortKeys(w: char -> nat)
    ensures TextWidth("a", w) == w('a') && TextWidth("b", w) == w('b') && TextWidth("ccccc", w) == 5 * w('c')
  {
    CopiesWidth('c', 5, w);
    assert Copies('c', 5) == "ccccc";
    assert "a"[1..] == "" && "b"[1..] == "";
  }

  lemma FirstMember(m: Member, rest: seq<Member>, w: char -> nat, gap: nat)
    ensures MembersLength([m] + rest, w, gap)
         == TextWidth(m.key, w) + 3 + gap + ValueWidth(m.value, w) + (if rest == [] then 0 else 1 + gap) + MembersLength(rest, w, gap)
    ensures m.value.Text? ==>
      MembersExcess([m] + rest) == TextWidth(m.key, Excess) + TextWidth(m.value.s, Excess) + MembersExcess(rest)
  {
    assert ([m] + rest)[1..] == rest;
  }

  lemma ThreeLengths(x: string, y: string)
    ensures PrintedLength(ThreeMembers(x, y)) == 26 + 2 * TextWidth(x, PrintedWidth) + TextWidth(y, PrintedWidth)
    ensures MembersExcess(ThreeMembers(x, y)) == 2 * TextWidth(x, Excess) + TextWidth(y, Excess)
  {
    hide TextWidth;
    var a, b, c := Member("a", Text(x)), Member("b", Text(x)), Member("ccccc", Text(y));
    ShortKeys(PrintedWidth);
    ShortKeys(Excess);
    FirstMember(c, [], PrintedWidth, 0);
    FirstMember(b, [c] + [], PrintedWidth, 0);
    FirstMember(a, [b] + ([c] + []), PrintedWidth, 0);
    assert ThreeMembers(x, y) == [a] + ([b] + ([c] + []));
  }

  /** n characters that both printers escape with six bytes. */
  function Controls(n: nat): string {
    Copies('\U{1}', n)
  }

  lemma ControlWidths(n: nat)
    ensures TextWidth(Controls(n), PrintedWidth) == 6 * n
    ensures TextWidth(Controls(n), Excess) == 0
    ensures TextWidth(Controls(n), Utf8Width) == n
  {
    CopiesWidth('\U{1}', n, PrintedWidth);
    CopiesWidth('\U{1}', n, Excess);
    CopiesWidth('\U{1}', n, Utf8Width);
  }

  /** n of them in the first two values and k in the third. */
  lemma ControlLengths(n: nat, k: nat)
    ensures PrintedLength(ThreeMembers(Controls(n), Controls(k))) == 26 + 12 * n + 6 * k
    ensures MembersExcess(ThreeMembers(Controls(n), Controls(k))) == 0
  {
    hide *;
    ControlWidths(n);
    ControlWidths(k);
    ThreeLengths(Controls(n), Controls(k));
  }

  lemma ControlsAreValid(n: nat, k: nat)
    requires n <= 500 && k <= 500 && 12 * n + 6 * k <= MAX_DETAILS - 26
    ensures ValidDetails(PlainTexts(), ThreeDetails(Controls(n), Controls(k)))
  {
    hide TextWidth;
    hide Controls;
    hide PrintedLength;
    ControlLengths(n, k);
    ThreeMembersAre(Controls(n), Controls(k));
    ControlWidths(n);
    ControlWidths(k);
    ShortKeys(Utf8Width);
  }

  /** Details that fill the limit as they are printed are prepared, and refused by the tables. */
  lemma FullDetailsOutgrow(c: Config, mac: Mac, id: Uuid, now: int, n: nat, k: nat)
    requires |c.secret| >= 32 && 0 < |c.keyId| <= 50
    requires n <= 500 && k <= 500 && MAX_DETAILS - 31 < 12 * n + 6 * k <= MAX_DETAILS - 26
    ensures var r := Prepare(c, PlainTexts(), mac, SomeInput("", ThreeDetails(Controls(n), Controls(k))), id, now);
      r.Some? && !FitsTheTable(PlainTexts(), r.value)
  {
    var details := ThreeDetails(Controls(n), Controls(k));
    ControlsAreValid(n, k);
    SomeInputIsPrepared(c, mac, "", details, id, now);
    StoredControls(n, k);
    StoredTooLong(c, mac, SomeInput("", details), id, now);
  }

  lemma StoredControls(n: nat, k: nat)
    ensures StoredLength(DetailsOf(ThreeDetails(Controls(n), Controls(k))).members) == 31 + 12 * n + 6 * k
  {
    hide Controls;
    hide StoredLength;
    hide PrintedLength;
    hide MembersExcess;
    hide DetailsOf;
    ThreeMembersAre(Controls(n), Controls(k));
    ControlLengths(n, k);
    DetailsLength(ThreeDetails(Controls(n), Controls(k)));
  }

  lemma StoredTooLong(c: Config, mac: Mac, i: Input, id: Uuid, now: int)
    requires Prepare(c, PlainTexts(), mac, i, id, now).Some? && StoredLength(DetailsOf(i.details).members) > MAX_DETAILS
    ensures !FitsTheTable(PlainTexts(), Prepare(c, PlainTexts(), mac, i, id, now).value)
  {
  }
}
