/**
 * The integrity signature of a security audit event: what Prepare signs, what the database may change on
 * the way, and what VerifyIntegrity accepts. HMAC-SHA-256 over the printed JSON is one parameter.
 */
module AuditIntegrity {
  import opened Common
  import opened StringOrder

  type Uuid = nat

  // ----- JSON objects -----

  /** A value of a member; other JSON than text is known by its own canonical form. */
  datatype Value = Text(s: string) | OtherJson(canonical: string)

  datatype Member = Member(key: string, value: Value)

  /** A raw message: the members of an object in the order they are written, or something else. */
  datatype Raw = Empty | NotJson | NotAnObject | Object(members: seq<Member>)

  /** json.Unmarshal into a map: of members with the same key the last one counts. */
  function Unmarshal(ms: seq<Member>): map<string, Value> {
    if ms == [] then map[]
    else
      var last := ms[|ms| - 1];
      Unmarshal(ms[..|ms| - 1])[last.key := last.value]
  }

  /** json.Marshal of a map: the members by ascending key. */
  function Marshal(m: map<string, Value>): seq<Member>
    decreases |m|
  {
    if m == map[] then []
    else
      var k := Least(m.Keys);
      [Member(k, m[k])] + Marshal(m - {k})
  }

  function CanonicalRawJSON(raw: Raw): Option<Raw> {
    match raw
    case Empty => Some(Object([]))
    case NotJson => None
    case NotAnObject => None
    case Object(ms) => Some(Object(Marshal(Unmarshal(ms))))
  }

  lemma {:induction false} UnmarshalCons(m: Member, rest: seq<Member>)
    ensures Unmarshal([m] + rest) == map[m.key := m.value] + Unmarshal(rest)
    decreases |rest|
  {
    var ms := [m] + rest;
    if rest == [] {
      assert ms[..0] == [];
    } else {
      assert ms[..|ms| - 1] == [m] + rest[..|rest| - 1];
      UnmarshalCons(m, rest[..|rest| - 1]);
    }
  }

  lemma {:induction false} UnmarshalMarshal(m: map<string, Value>)
    ensures Unmarshal(Marshal(m)) == m
    decreases |m|
  {
    if m == map[] {
    } else {
      var k := Least(m.Keys);
      UnmarshalMarshal(m - {k});
      UnmarshalCons(Member(k, m[k]), Marshal(m - {k}));
    }
  }

  ghost predicate SortedMembers(ms: seq<Member>) {
    forall i, j | 0 <= i < j < |ms| :: Before(ms[i].key, ms[j].key)
  }

  lemma {:induction false} UnmarshalKeys(ms: seq<Member>)
    ensures forall i | 0 <= i < |ms| :: ms[i].key in Unmarshal(ms)
    ensures forall k | k in Unmarshal(ms) :: exists i :: 0 <= i < |ms| && ms[i].key == k
  {
    if ms == [] {
    } else {
      var init := ms[..|ms| - 1];
      UnmarshalKeys(init);
      assert forall i | 0 <= i < |init| :: init[i] == ms[i];
    }
  }

  /** Of several members with one key the last one counts. */
  lemma {:induction false} LastMemberCounts(ms: seq<Member>, i: nat)
    requires i < |ms| && forall j | i < j < |ms| :: ms[j].key != ms[i].key
    ensures ms[i].key in Unmarshal(ms) && Unmarshal(ms)[ms[i].key] == ms[i].value
  {
    if i == |ms| - 1 {
    } else {
      LastMemberCounts(ms[..|ms| - 1], i);
    }
  }

  lemma {:induction false} MarshalIsSorted(m: map<string, Value>)
    ensures SortedMembers(Marshal(m))
    decreases |m|
  {
    if m == map[] {
    } else {
      var k := Least(m.Keys);
      var rest := Marshal(m - {k});
      MarshalIsSorted(m - {k});
      UnmarshalMarshal(m - {k});
      UnmarshalKeys(rest);
    }
  }

  lemma HeadIsLeast(ms: seq<Member>)
    requires ms != [] && SortedMembers(ms)
    ensures ms[0].key in Unmarshal(ms) && Least(Unmarshal(ms).Keys) == ms[0].key
    ensures ms[0].key !in Unmarshal(ms[1..])
  {
    UnmarshalKeys(ms);
    UnmarshalKeys(ms[1..]);
    var keys := Unmarshal(ms).Keys;
    assert IsLeast(ms[0].key, keys);
    LeastIsUnique(ms[0].key, Least(keys), keys);
    BeforeIsTotal(ms[0].key, ms[0].key);
    assert forall i | 0 <= i < |ms[1..]| :: ms[1..][i].key == ms[i + 1].key;
  }

  /** A key-sorted object is the only one with its contents: no other sorted text means the same. */
  lemma {:induction false} SortedFormIsUnique(ms: seq<Member>)
    requires SortedMembers(ms)
    ensures Marshal(Unmarshal(ms)) == ms
    decreases |ms|
  {
    if ms == [] {
    } else {
      var rest := ms[1..];
      HeadIsLeast(ms);
      assert ms == [ms[0]] + rest;
      UnmarshalCons(ms[0], rest);
      assert Unmarshal(ms) - {ms[0].key} == Unmarshal(rest);
      SortedFormIsUnique(rest);
    }
  }

  /**
   * Canonical forms agree exactly when the objects mean the same, are key-sorted, and are left alone by
   * canonicalizing again.
   */
  lemma CanonicalForm(a: seq<Member>, b: seq<Member>)
    ensures CanonicalRawJSON(Object(a)) == CanonicalRawJSON(Object(b)) <==> Unmarshal(a) == Unmarshal(b)
    ensures CanonicalRawJSON(CanonicalRawJSON(Object(a)).value) == CanonicalRawJSON(Object(a))
    ensures SortedMembers(CanonicalRawJSON(Object(a)).value.members)
  {
    UnmarshalMarshal(Unmarshal(a));
    UnmarshalMarshal(Unmarshal(b));
    MarshalIsSorted(Unmarshal(a));
  }

  // ----- The length of printed JSON, in bytes -----

  function Utf8Width(c: char): nat {
    if c as int < 0x80 then 1 else if c as int < 0x800 then 2 else if c as int < 0x1_0000 then 3 else 4
  }

  /** One of the two-character escapes that every printer uses. */
  predicate ShortEscape(c: char) {
    c in {'\"', '\\', '\n', '\r', '\t', '\U{8}', '\U{C}'}
  }

  /** A character as json.Marshal writes it, which also escapes for HTML and the two line separators. */
  function PrintedWidth(c: char): nat {
    if ShortEscape(c) then 2
    else if c < ' ' || c in {'<', '>', '&', '\U{2028}', '\U{2029}'} then 6
    else Utf8Width(c)
  }

  function TextWidth(s: string, w: char -> nat): nat {
    if s == [] then 0 else w(s[0]) + TextWidth(s[1..], w)
  }

  /** Another value than text does not occur in what Prepare signs. */
  function ValueWidth(v: Value, w: char -> nat): nat {
    match v
    case Text(s) => TextWidth(s, w) + 2
    case OtherJson(canonical) => TextWidth(canonical, Utf8Width)
  }

  /** Members with `gap` spaces after each colon and comma. */
  function MembersLength(ms: seq<Member>, w: char -> nat, gap: nat): nat {
    if ms == [] then 0
    else
      TextWidth(ms[0].key, w) + 2 + 1 + gap + ValueWidth(ms[0].value, w)
      + (if |ms| == 1 then 0 else 1 + gap) + MembersLength(ms[1..], w, gap)
  }

  function PrintedLength(ms: seq<Member>): nat {
    2 + MembersLength(ms, PrintedWidth, 0)
  }

  // ----- Hexadecimal -----

  function HexDigit(v: int): char
    requires 0 <= v < 16
  {
    "0123456789abcdef"[v]
  }

  function HexValue(c: char): (v: Option<int>)
    ensures v.Some? ==> 0 <= v.value < 16
  {
    if '0' <= c <= '9' then Some(c as int - '0' as int)
    else if 'a' <= c <= 'f' then Some(c as int - 'a' as int + 10)
    else if 'A' <= c <= 'F' then Some(c as int - 'A' as int + 10)
    else None
  }

  function HexEncode(bs: Bytes): string {
    if bs == [] then [] else [HexDigit(bs[0] / 16), HexDigit(bs[0] % 16)] + HexEncode(bs[1..])
  }

  function HexDecode(s: string): Option<Bytes> {
    if s == [] then Some([])
    else if |s| == 1 || HexValue(s[0]).None? || HexValue(s[1]).None? || HexDecode(s[2..]).None? then None
    else Some([HexValue(s[0]).value * 16 + HexValue(s[1]).value] + HexDecode(s[2..]).value)
  }

  lemma DecodeByte(b: Byte, rest: string, tail: Bytes)
    requires HexDecode(rest) == Some(tail)
    ensures HexDecode([HexDigit(b / 16), HexDigit(b % 16)] + rest) == Some([b] + tail)
  {
    var s := [HexDigit(b / 16), HexDigit(b % 16)] + rest;
    assert s[0] == HexDigit(b / 16) && s[1] == HexDigit(b % 16) && s[2..] == rest;
    HexDigitValue(b / 16);
    HexDigitValue(b % 16);
  }

  lemma {:induction false} HexRoundTrip(bs: Bytes)
    ensures HexDecode(HexEncode(bs)) == Some(bs)
  {
    if bs == [] {
    } else {
      HexRoundTrip(bs[1..]);
      DecodeByte(bs[0], HexEncode(bs[1..]), bs[1..]);
      assert bs == [bs[0]] + bs[1..];
    }
  }

  /** The CHECK on a stored MAC: 64 lower-case hexadecimal digits. */
  predicate IsHex64(s: string) {
    |s| == 64 && forall i | 0 <= i < |s| :: '0' <= s[i] <= '9' || 'a' <= s[i] <= 'f'
  }

  lemma {:induction false} HexDigits(bs: Bytes)
    ensures |HexEncode(bs)| == 2 * |bs|
    ensures forall i | 0 <= i < |HexEncode(bs)| :: '0' <= HexEncode(bs)[i] <= '9' || 'a' <= HexEncode(bs)[i] <= 'f'
  {
    if bs == [] {
    } else {
      HexDigits(bs[1..]);
      HexDigitIsDigit(bs[0] / 16);
      HexDigitIsDigit(bs[0] % 16);
    }
  }

  lemma HexDigitIsDigit(v: int)
    requires 0 <= v < 16
    ensures '0' <= HexDigit(v) <= '9' || 'a' <= HexDigit(v) <= 'f'
  {
  }

  lemma HexDigitValue(v: int)
    requires 0 <= v < 16
    ensures HexValue(HexDigit(v)) == Some(v)
  {
  }

  // ----- The signature -----

  /** The parameters of an event, without its signature. Times are in nanoseconds. */
  datatype Event = Event(
    id: Uuid, occurredAt: int, eventType: string, severity: string, outcome: string, actorType: string,
    actorUserId: Option<Uuid>, organizationId: Option<Uuid>, resourceType: Option<string>, resourceId: Option<Uuid>,
    requestId: Option<string>, sourceService: string, httpMethod: Option<string>, routePattern: Option<string>,
    statusCode: Option<int>, clientIpHmac: Option<string>, userAgentHmac: Option<string>, details: Raw, keyId: string)

  datatype Signed = Signed(event: Event, hmac: string)

  /** The object that is printed and signed: absent texts are empty, an absent status code is 0. */
  datatype Form = Form(
    id: Uuid, occurredAt: int, eventType: string, severity: string, outcome: string, actorType: string,
    actorUserId: Option<Uuid>, organizationId: Option<Uuid>, resourceType: string, resourceId: Option<Uuid>,
    requestId: string, sourceService: string, httpMethod: string, routePattern: string,
    statusCode: int, clientIpHmac: string, userAgentHmac: string, details: Raw, keyId: string)

  type Mac = (Bytes, Form) -> Bytes

  function StringValue(s: Option<string>): string {
    if s.None? then "" else s.value
  }

  function Int32Value(v: Option<int>): int {
    if v.None? then 0 else v.value
  }

  function FormOf(e: Event, details: Raw): Form {
    Form(e.id, e.occurredAt, e.eventType, e.severity, e.outcome, e.actorType, e.actorUserId, e.organizationId,
         StringValue(e.resourceType), e.resourceId, StringValue(e.requestId), e.sourceService, StringValue(e.httpMethod),
         StringValue(e.routePattern), Int32Value(e.statusCode), StringValue(e.clientIpHmac), StringValue(e.userAgentHmac),
         details, e.keyId)
  }

  function IntegrityHMAC(mac: Mac, secret: Bytes, e: Event): Option<string> {
    var details := CanonicalRawJSON(e.details);
    if details.None? then None else Some(HexEncode(mac(secret, FormOf(e, details.value))))
  }

  /** Text functions of the standard library, as far as they matter here. */
  datatype Texts = Texts(trim: string -> string, lower: string -> string, upper: string -> string, cut: (string, nat) -> string,
                         isName: string -> bool, keyedHash: (Bytes, string, string) -> Bytes)

  datatype Config = Config(secret: Bytes, keyId: string)

  /** The trimmed key id is the one that is stored and compared. */
  function KeyId(c: Config, t: Texts): string {
    t.trim(c.keyId)
  }

  function VerifyIntegrity(c: Config, t: Texts, mac: Mac, s: Signed): bool {
    if |c.secret| < 32 || s.event.keyId != KeyId(c, t) then false
    else
      var details := CanonicalRawJSON(s.event.details);
      if details.None? then false
      else
        var expected := IntegrityHMAC(mac, c.secret, s.event.(details := details.value));
        if expected.None? || HexDecode(s.hmac).None? || HexDecode(expected.value).None? then false
        else HexDecode(s.hmac) == HexDecode(expected.value)
  }

  // ----- Prepare -----

  datatype Input = Input(
    eventType: string, severity: string, outcome: string, actorType: string, actorUserId: Option<Uuid>,
    organizationId: Option<Uuid>, resourceType: string, resourceId: Option<Uuid>, requestId: string, sourceService: string,
    httpMethod: string, routePattern: string, statusCode: int, clientIp: string, userAgent: string, details: map<string, string>)

  const NIL_UUID: Uuid := 0

  function TrimToLength(t: Texts, s: string, max: nat): string {
    if |t.trim(s)| <= max then t.trim(s) else t.cut(t.trim(s), max)
  }

  function Normalized(t: Texts, i: Input): Input {
    i.(eventType := t.trim(t.lower(i.eventType)), severity := t.trim(t.lower(i.severity)), outcome := t.trim(t.lower(i.outcome)),
       actorType := t.trim(t.lower(i.actorType)), resourceType := t.trim(t.lower(i.resourceType)),
       requestId := TrimToLength(t, i.requestId, 100), sourceService := t.trim(t.lower(i.sourceService)),
       httpMethod := TrimToLength(t, t.upper(i.httpMethod), 10), routePattern := TrimToLength(t, i.routePattern, 200),
       clientIp := t.trim(i.clientIp), userAgent := t.trim(i.userAgent))
  }

  predicate KnownLabels(severity: string, outcome: string, actorType: string, sourceService: string) {
    && severity in {"info", "warning", "critical"} && outcome in {"success", "denied", "failure"}
    && actorType in {"user", "anonymous", "recipient", "system", "webhook"}
    && sourceService in {"api", "mail-worker", "cleanup-worker"}
  }

  predicate ValidInput(t: Texts, i: Input) {
    && t.isName(i.eventType) && KnownLabels(i.severity, i.outcome, i.actorType, i.sourceService)
    && (i.actorType == "user" ==> i.actorUserId.Some? && i.actorUserId.value != NIL_UUID)
    && (i.resourceType != "" ==> t.isName(i.resourceType))
    && (i.statusCode == 0 || 100 <= i.statusCode <= 599)
  }

  const MAX_DETAILS := 8 * 1024

  /** len counts bytes. */
  predicate ValidDetails(t: Texts, details: map<string, string>) {
    && (forall k | k in details ::
          0 < TextWidth(k, Utf8Width) <= 100 && t.trim(k) == k && TextWidth(details[k], Utf8Width) <= 500)
    && PrintedLength(DetailsOf(details).members) <= MAX_DETAILS
  }

  function DetailsOf(details: map<string, string>): (r: Raw)
    ensures r.Object?
  {
    Object(Marshal(map k | k in details :: Text(details[k])))
  }

  function OptionalText(t: Texts, s: string): Option<string> {
    if t.trim(s) == "" then None else Some(t.trim(s))
  }

  function OptionalHMAC(t: Texts, secret: Bytes, domain: string, s: string): Option<string> {
    if t.trim(s) == "" then None else Some(HexEncode(t.keyedHash(secret, domain, t.trim(s))))
  }

  /** Truncate(time.Microsecond). */
  function Micros(time: int): int {
    time / 1000 * 1000
  }

  function Params(c: Config, t: Texts, i: Input, id: Uuid, now: int): Event {
    var n := Normalized(t, i);
    Event(id, Micros(now), n.eventType, n.severity, n.outcome, n.actorType, n.actorUserId, n.organizationId,
          OptionalText(t, n.resourceType), n.resourceId, OptionalText(t, n.requestId), n.sourceService,
          OptionalText(t, n.httpMethod), OptionalText(t, n.routePattern),
          if n.statusCode == 0 then None else Some(n.statusCode),
          OptionalHMAC(t, c.secret, "client_ip", n.clientIp), OptionalHMAC(t, c.secret, "user_agent", n.userAgent),
          DetailsOf(n.details), KeyId(c, t))
  }

  function Prepare(c: Config, t: Texts, mac: Mac, i: Input, id: Uuid, now: int): Option<Signed> {
    if |c.secret| < 32 || KeyId(c, t) == "" || |KeyId(c, t)| > 50 then None
    else if !ValidInput(t, Normalized(t, i)) || !ValidDetails(t, i.details) then None
    else
      var e := Params(c, t, i, id, now);
      var hmac := IntegrityHMAC(mac, c.secret, e);
      if hmac.None? then None else Some(Signed(e, hmac.value))
  }

  /** The part of a text that is kept: trimmed, and cut when it is longer than `max`. */
  ghost predicate IsKept(t: Texts, s: string, max: nat, r: string) {
    && (|t.trim(s)| <= max ==> r == t.trim(s))
    && (|t.trim(s)| > max ==> r == t.cut(t.trim(s), max))
  }

  /** A blank text is stored as no text. */
  ghost predicate IsStored(t: Texts, s: string, r: Option<string>) {
    if t.trim(s) == "" then r.None? else r == Some(t.trim(s))
  }

  ghost predicate IsHashed(t: Texts, secret: Bytes, domain: string, s: string, r: Option<string>) {
    if t.trim(s) == "" then r.None? else r.Some? && HexDecode(r.value) == Some(t.keyedHash(secret, domain, t.trim(s)))
  }

  /** What Prepare asks of its input. */
  ghost predicate Acceptable(c: Config, t: Texts, i: Input) {
    && |c.secret| >= 32 && 0 < |t.trim(c.keyId)| <= 50
    && t.isName(t.trim(t.lower(i.eventType)))
    && t.trim(t.lower(i.severity)) in {"info", "warning", "critical"}
    && t.trim(t.lower(i.outcome)) in {"success", "denied", "failure"}
    && t.trim(t.lower(i.actorType)) in {"user", "anonymous", "recipient", "system", "webhook"}
    && t.trim(t.lower(i.sourceService)) in {"api", "mail-worker", "cleanup-worker"}
    && (t.trim(t.lower(i.actorType)) == "user" ==> i.actorUserId.Some? && i.actorUserId.value != NIL_UUID)
    && (t.trim(t.lower(i.resourceType)) == "" || t.isName(t.trim(t.lower(i.resourceType))))
    && (i.statusCode == 0 || 100 <= i.statusCode <= 599)
    && (forall k | k in i.details :: t.trim(k) == k && 0 < TextWidth(k, Utf8Width) <= 100)
    && (forall k | k in i.details :: TextWidth(i.details[k], Utf8Width) <= 500)
    && PrintedLength(DetailsOf(i.details).members) <= 8192
  }

  /** The event records each field of the input where it belongs. */
  ghost predicate Records(c: Config, t: Texts, i: Input, e: Event) {
    && e.eventType == t.trim(t.lower(i.eventType)) && e.severity == t.trim(t.lower(i.severity))
    && e.outcome == t.trim(t.lower(i.outcome)) && e.actorType == t.trim(t.lower(i.actorType))
    && e.sourceService == t.trim(t.lower(i.sourceService))
    && e.actorUserId == i.actorUserId && e.organizationId == i.organizationId && e.resourceId == i.resourceId
    && e.statusCode == (if i.statusCode == 0 then None else Some(i.statusCode)) && e.keyId == t.trim(c.keyId)
    && IsStored(t, t.trim(t.lower(i.resourceType)), e.resourceType)
    && (exists r :: IsKept(t, i.requestId, 100, r) && IsStored(t, r, e.requestId))
    && (exists r :: IsKept(t, t.upper(i.httpMethod), 10, r) && IsStored(t, r, e.httpMethod))
    && (exists r :: IsKept(t, i.routePattern, 200, r) && IsStored(t, r, e.routePattern))
    && IsHashed(t, c.secret, "client_ip", t.trim(i.clientIp), e.clientIpHmac)
    && IsHashed(t, c.secret, "user_agent", t.trim(i.userAgent), e.userAgentHmac)
    && e.details.Object? && SortedMembers(e.details.members) && Says(e.details.members, i.details)
  }

  /** The members are the given texts. */
  ghost predicate Says(ms: seq<Member>, details: map<string, string>) {
    && Unmarshal(ms).Keys == details.Keys
    && forall k | k in details :: Unmarshal(ms)[k] == Text(details[k])
  }

  lemma DetailsSay(details: map<string, string>)
    ensures SortedMembers(DetailsOf(details).members) && Says(DetailsOf(details).members, details)
  {
    var m := map k | k in details :: Text(details[k]);
    UnmarshalMarshal(m);
    MarshalIsSorted(m);
    assert m.Keys == details.Keys;
  }

  lemma ParamsRecord(c: Config, t: Texts, i: Input, id: Uuid, now: int)
    ensures Records(c, t, i, Params(c, t, i, id, now))
  {
    DetailsSay(i.details);
    HexRoundTrip(t.keyedHash(c.secret, "client_ip", t.trim(t.trim(i.clientIp))));
    HexRoundTrip(t.keyedHash(c.secret, "user_agent", t.trim(t.trim(i.userAgent))));
    assert IsKept(t, i.requestId, 100, TrimToLength(t, i.requestId, 100));
    assert IsKept(t, t.upper(i.httpMethod), 10, TrimToLength(t, t.upper(i.httpMethod), 10));
    assert IsKept(t, i.routePattern, 200, TrimToLength(t, i.routePattern, 200));
  }

  lemma AcceptedInput(c: Config, t: Texts, i: Input)
    ensures Acceptable(c, t, i) <==>
      && |c.secret| >= 32 && KeyId(c, t) != "" && |KeyId(c, t)| <= 50
      && ValidInput(t, Normalized(t, i)) && ValidDetails(t, i.details)
  {
    hide DetailsOf;
    hide PrintedLength;
    hide TextWidth;
  }

  lemma SignsWhenAccepted(c: Config, t: Texts, mac: Mac, i: Input, id: Uuid, now: int)
    ensures Prepare(c, t, mac, i, id, now).Some? <==>
      && |c.secret| >= 32 && KeyId(c, t) != "" && |KeyId(c, t)| <= 50
      && ValidInput(t, Normalized(t, i)) && ValidDetails(t, i.details)
    ensures Prepare(c, t, mac, i, id, now).Some? ==> Prepare(c, t, mac, i, id, now).value.event == Params(c, t, i, id, now)
  {
    hide ValidInput;
    hide ValidDetails;
    hide Normalized;
    hide KeyId;
  }

  /** When Prepare signs an event, and what the event holds: the time in whole microseconds, the rest from the input. */
  lemma PreparedExactly(c: Config, t: Texts, mac: Mac, i: Input, id: Uuid, now: int)
    ensures Prepare(c, t, mac, i, id, now).Some? <==> Acceptable(c, t, i)
    ensures var r := Prepare(c, t, mac, i, id, now);
      r.Some? ==>
        && r.value.event.id == id && r.value.event.occurredAt % 1000 == 0 && 0 <= now - r.value.event.occurredAt < 1000
        && Records(c, t, i, r.value.event)
  {
    hide Acceptable;
    hide ValidInput;
    hide ValidDetails;
    hide Records;
    hide Prepare;
    AcceptedInput(c, t, i);
    SignsWhenAccepted(c, t, mac, i, id, now);
    ParamsRecord(c, t, i, id, now);
  }

  // ----- Storage -----

  /**
   * What a row reads back as: times in whole microseconds, details in the database's own member order
   * and with each key once, everything else as written.
   */
  ghost predicate ReadsBackAs(s: Signed, s': Signed) {
    && s'.hmac == s.hmac && s.event.details.Object? && s'.event.details.Object?
    && s'.event == s.event.(occurredAt := Micros(s.event.occurredAt), details := s'.event.details)
    && Unmarshal(s'.event.details.members) == Unmarshal(s.event.details.members)
  }

  // ----- Main results -----

  /** What an object says; nothing at all is the empty object. */
  function Meaning(raw: Raw): Option<map<string, Value>> {
    match raw
    case Empty => Some(map[])
    case Object(ms) => Some(Unmarshal(ms))
    case _ => None
  }

  lemma CanonicalMeans(raw: Raw)
    ensures CanonicalRawJSON(raw).Some? <==> Meaning(raw).Some?
    ensures Meaning(raw).Some? ==> CanonicalRawJSON(raw) == Some(Object(Marshal(Meaning(raw).value)))
    ensures CanonicalRawJSON(raw).Some? ==> CanonicalRawJSON(CanonicalRawJSON(raw).value) == CanonicalRawJSON(raw)
  {
    if raw.Object? { UnmarshalMarshal(Unmarshal(raw.members)); }
  }

  /** The form shows every field of the event, and its details by ascending key. */
  ghost predicate Shows(f: Form, e: Event) {
    && f.id == e.id && f.occurredAt == e.occurredAt && f.eventType == e.eventType && f.severity == e.severity
    && f.outcome == e.outcome && f.actorType == e.actorType && f.actorUserId == e.actorUserId
    && f.organizationId == e.organizationId && f.resourceId == e.resourceId && f.sourceService == e.sourceService
    && f.keyId == e.keyId
    && f.resourceType == (if e.resourceType.Some? then e.resourceType.value else "")
    && f.requestId == (if e.requestId.Some? then e.requestId.value else "")
    && f.httpMethod == (if e.httpMethod.Some? then e.httpMethod.value else "")
    && f.routePattern == (if e.routePattern.Some? then e.routePattern.value else "")
    && f.statusCode == (if e.statusCode.Some? then e.statusCode.value else 0)
    && f.clientIpHmac == (if e.clientIpHmac.Some? then e.clientIpHmac.value else "")
    && f.userAgentHmac == (if e.userAgentHmac.Some? then e.userAgentHmac.value else "")
    && f.details.Object? && SortedMembers(f.details.members) && Meaning(e.details) == Some(Unmarshal(f.details.members))
  }

  lemma FormShows(f: Form, e: Event)
    requires CanonicalRawJSON(e.details).Some?
    ensures Shows(f, e) <==> f == FormOf(e, CanonicalRawJSON(e.details).value)
  {
    var m := Meaning(e.details).value;
    CanonicalMeans(e.details);
    UnmarshalMarshal(m);
    MarshalIsSorted(m);
    if f.details.Object? && SortedMembers(f.details.members) { SortedFormIsUnique(f.details.members); }
  }

  /**
   * A row verifies exactly when it names the configured key and its signature is the MAC of the one form
   * that shows it; details that are no object never verify.
   */
  lemma VerifiesByForm(c: Config, t: Texts, mac: Mac, s: Signed)
    ensures VerifyIntegrity(c, t, mac, s) <==>
      && |c.secret| >= 32 && s.event.keyId == t.trim(c.keyId)
      && exists f :: Shows(f, s.event) && HexDecode(s.hmac) == Some(mac(c.secret, f))
  {
    CanonicalMeans(s.event.details);
    if CanonicalRawJSON(s.event.details).Some? {
      var form := FormOf(s.event, CanonicalRawJSON(s.event.details).value);
      forall f ensures Shows(f, s.event) <==> f == form { FormShows(f, s.event); }
      HexRoundTrip(mac(c.secret, form));
    }
  }

  /** A row in whole microseconds verifies after storage exactly when it did before. */
  lemma StorageKeepsVerdict(c: Config, t: Texts, mac: Mac, s: Signed, s': Signed)
    requires ReadsBackAs(s, s') && s.event.occurredAt % 1000 == 0
    ensures VerifyIntegrity(c, t, mac, s') == VerifyIntegrity(c, t, mac, s) && s'.event.occurredAt == s.event.occurredAt
  {
    VerifiesByForm(c, t, mac, s);
    VerifiesByForm(c, t, mac, s');
    forall f ensures Shows(f, s.event) <==> Shows(f, s'.event) { }
  }

  lemma SignedVerifies(c: Config, t: Texts, mac: Mac, e: Event)
    requires |c.secret| >= 32 && e.keyId == KeyId(c, t) && IntegrityHMAC(mac, c.secret, e).Some?
    ensures VerifyIntegrity(c, t, mac, Signed(e, IntegrityHMAC(mac, c.secret, e).value))
  {
    var form := FormOf(e, CanonicalRawJSON(e.details).value);
    VerifiesByForm(c, t, mac, Signed(e, IntegrityHMAC(mac, c.secret, e).value));
    FormShows(form, e);
    HexRoundTrip(mac(c.secret, form));
  }

  /** Every event that Prepare signs verifies, in whole microseconds. */
  lemma PreparedVerifies(c: Config, t: Texts, mac: Mac, i: Input, id: Uuid, now: int)
    requires Prepare(c, t, mac, i, id, now).Some?
    ensures var s := Prepare(c, t, mac, i, id, now).value;
      VerifyIntegrity(c, t, mac, s) && s.event.details.Object? && s.event.occurredAt % 1000 == 0 && s.event.id == id
  {
    SignedVerifies(c, t, mac, Params(c, t, i, id, now));
  }

  /** The same contents, field by field: absent and empty texts alike, details in any order. */
  ghost predicate SameContents(e: Event, f: Event) {
    && e.id == f.id && e.occurredAt == f.occurredAt && e.eventType == f.eventType && e.severity == f.severity
    && e.outcome == f.outcome && e.actorType == f.actorType && e.actorUserId == f.actorUserId
    && e.organizationId == f.organizationId && e.resourceId == f.resourceId && e.sourceService == f.sourceService
    && e.keyId == f.keyId
    && StringValue(e.resourceType) == StringValue(f.resourceType) && StringValue(e.requestId) == StringValue(f.requestId)
    && StringValue(e.httpMethod) == StringValue(f.httpMethod) && StringValue(e.routePattern) == StringValue(f.routePattern)
    && StringValue(e.clientIpHmac) == StringValue(f.clientIpHmac) && StringValue(e.userAgentHmac) == StringValue(f.userAgentHmac)
    && Int32Value(e.statusCode) == Int32Value(f.statusCode)
    && Meaning(e.details) == Meaning(f.details)
  }

  lemma FormsTell(form: Form, e: Event, f: Event)
    requires Shows(form, f)
    ensures Shows(form, e) <==> SameContents(e, f)
  {
  }

  /**
   * With a signature function that tells forms apart, a row that carries the signature of `signed` verifies
   * exactly when its contents are those that were signed.
   */
  lemma TamperingIsDetected(c: Config, t: Texts, mac: Mac, signed: Signed, row: Signed)
    requires forall a, b | mac(c.secret, a) == mac(c.secret, b) :: a == b
    requires VerifyIntegrity(c, t, mac, signed) && HexDecode(row.hmac) == HexDecode(signed.hmac)
    ensures VerifyIntegrity(c, t, mac, row) <==> SameContents(row.event, signed.event)
  {
    VerifiesByForm(c, t, mac, signed);
    VerifiesByForm(c, t, mac, row);
    var form :| Shows(form, signed.event) && HexDecode(signed.hmac) == Some(mac(c.secret, form));
    FormsTell(form, row.event, signed.event);
  }
}
