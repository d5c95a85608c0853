/**
 * The access grant: what is printed, signed and parsed back. Strings are bytes, as in Go. SHA-256 and HMAC
 * are parameters; base64url without padding follows sections 5 and 3.2 of RFC 4648, decoded as leniently
 * as Go's RawURLEncoding does.
 */
module AccessGrant {
  import opened Common

  const COLON: Byte := 58
  const DOT: Byte := 46
  const MINUS: Byte := 45
  const PLUS: Byte := 43
  const ZERO: Byte := 48

  // ----- base64url without padding -----

  function Digit(v: int): (c: Byte)
    requires 0 <= v < 64
    ensures Value(c) == Some(v) && c != DOT && c != 10 && c != 13
  {
    if v < 26 then 65 + v else if v < 52 then 97 + v - 26 else if v < 62 then 48 + v - 52 else if v == 62 then 45 else 95
  }

  function Value(c: Byte): (v: Option<int>)
    ensures v.Some? ==> 0 <= v.value < 64
  {
    if 65 <= c <= 90 then Some(c - 65)
    else if 97 <= c <= 122 then Some(c - 97 + 26)
    else if 48 <= c <= 57 then Some(c - 48 + 52)
    else if c == 45 then Some(62)
    else if c == 95 then Some(63)
    else None
  }

  /** The four digits of three bytes; a short group drops the last one or two. */
  function Quad(a: Byte, b: Byte, c: Byte): Bytes {
    var n := (a * 256 + b) * 256 + c;
    [Digit(n / 64 / 64 / 64), Digit(n / 64 / 64 % 64), Digit(n / 64 % 64), Digit(n % 64)]
  }

  function Encode(bs: Bytes): Bytes {
    if |bs| == 0 then []
    else if |bs| == 1 then Quad(bs[0], 0, 0)[..2]
    else if |bs| == 2 then Quad(bs[0], bs[1], 0)[..3]
    else Quad(bs[0], bs[1], bs[2]) + Encode(bs[3..])
  }

  /** Line breaks are skipped wherever they stand. */
  function WithoutBreaks(s: Bytes): Bytes {
    if s == [] then [] else (if s[0] == 10 || s[0] == 13 then [] else [s[0]]) + WithoutBreaks(s[1..])
  }

  function Joined(v: int, w: int, x: int, y: int): (n: int)
    requires 0 <= v < 64 && 0 <= w < 64 && 0 <= x < 64 && 0 <= y < 64
    ensures 0 <= n < 16777216
  {
    ((v * 64 + w) * 64 + x) * 64 + y
  }

  function ThreeBytes(n: int): (t: Bytes)
    requires 0 <= n < 16777216
    ensures |t| == 3
  {
    [n / 256 / 256, n / 256 % 256, n % 256]
  }

  function Triple(v: int, w: int, x: int, y: int): (t: Bytes)
    requires 0 <= v < 64 && 0 <= w < 64 && 0 <= x < 64 && 0 <= y < 64
    ensures |t| == 3
  {
    ThreeBytes(Joined(v, w, x, y))
  }

  /** The bits left over in a short last group are ignored; a single left-over digit is an error. */
  function DecodeQuads(s: Bytes): Option<Bytes> {
    if s == [] then Some([])
    else if |s| == 1 then None
    else if Value(s[0]).None? || Value(s[1]).None? then None
    else if |s| == 2 then Some(Triple(Value(s[0]).value, Value(s[1]).value, 0, 0)[..1])
    else if Value(s[2]).None? then None
    else if |s| == 3 then Some(Triple(Value(s[0]).value, Value(s[1]).value, Value(s[2]).value, 0)[..2])
    else if Value(s[3]).None? || DecodeQuads(s[4..]).None? then None
    else Some(Triple(Value(s[0]).value, Value(s[1]).value, Value(s[2]).value, Value(s[3]).value) + DecodeQuads(s[4..]).value)
  }

  function Decode(s: Bytes): Option<Bytes> {
    DecodeQuads(WithoutBreaks(s))
  }

  lemma SplitIn64(n: int)
    requires 0 <= n < 16777216
    ensures Joined(n / 64 / 64 / 64, n / 64 / 64 % 64, n / 64 % 64, n % 64) == n
  {
    assert n == n / 64 * 64 + n % 64;
    assert n / 64 == n / 64 / 64 * 64 + n / 64 % 64;
    assert n / 64 / 64 == n / 64 / 64 / 64 * 64 + n / 64 / 64 % 64;
  }

  lemma SplitIn256(a: Byte, b: Byte, c: Byte)
    ensures 0 <= (a * 256 + b) * 256 + c < 16777216
    ensures ThreeBytes((a * 256 + b) * 256 + c) == [a, b, c]
  {
    var n := (a * 256 + b) * 256 + c;
    assert n / 256 == a * 256 + b;
  }

  lemma ValuesOfQuad(a: Byte, b: Byte, c: Byte)
    ensures var n := (a * 256 + b) * 256 + c;
      && Value(Quad(a, b, c)[0]) == Some(n / 64 / 64 / 64) && Value(Quad(a, b, c)[1]) == Some(n / 64 / 64 % 64)
      && Value(Quad(a, b, c)[2]) == Some(n / 64 % 64) && Value(Quad(a, b, c)[3]) == Some(n % 64)
  {
  }

  /** What is left of a group of one or two bytes decodes as if the zero digits were there. */
  lemma ShortGroups(a: Byte, b: Byte)
    ensures Value(Quad(a, b, 0)[3]) == Some(0) && Value(Quad(a, 0, 0)[2]) == Some(0)
  {
    ValuesOfQuad(a, b, 0);
    ValuesOfQuad(a, 0, 0);
    MultiplesOf64(a, b);
  }

  lemma MultiplesOf64(a: Byte, b: Byte)
    ensures ((a * 256 + b) * 256) % 64 == 0 && ((a * 256) * 256) / 64 % 64 == 0
  {
    assert (a * 256 + b) * 256 == 64 * ((a * 256 + b) * 4);
    assert (a * 256) * 256 == 64 * (64 * (a * 16));
  }

  lemma TripleOfQuad(a: Byte, b: Byte, c: Byte)
    ensures var q := Quad(a, b, c);
      && (forall i | 0 <= i < 4 :: Value(q[i]).Some?)
      && Triple(Value(q[0]).value, Value(q[1]).value, Value(q[2]).value, Value(q[3]).value) == [a, b, c]
  {
    ValuesOfQuad(a, b, c);
    SplitIn64((a * 256 + b) * 256 + c);
    SplitIn256(a, b, c);
  }

  ghost predicate Clean(s: Bytes) {
    forall i | 0 <= i < |s| :: s[i] != DOT && s[i] != 10 && s[i] != 13
  }

  lemma {:induction false} EncodeIsClean(bs: Bytes)
    ensures Clean(Encode(bs)) && (bs != [] ==> Encode(bs) != [])
  {
    if |bs| < 3 {
    } else {
      EncodeIsClean(bs[3..]);
    }
  }

  lemma {:induction false} CleanHasNoBreaks(s: Bytes)
    requires Clean(s)
    ensures WithoutBreaks(s) == s
  {
    if s == [] {
    } else {
      CleanHasNoBreaks(s[1..]);
    }
  }

  lemma DecodeOne(a: Byte)
    ensures DecodeQuads(Quad(a, 0, 0)[..2]) == Some([a])
  {
    TripleOfQuad(a, 0, 0);
    ShortGroups(a, 0);
    var s := Quad(a, 0, 0)[..2];
    assert s[0] == Quad(a, 0, 0)[0] && s[1] == Quad(a, 0, 0)[1];
    assert [a, 0, 0][..1] == [a];
  }

  lemma DecodeTwo(a: Byte, b: Byte)
    ensures DecodeQuads(Quad(a, b, 0)[..3]) == Some([a, b])
  {
    TripleOfQuad(a, b, 0);
    ShortGroups(a, b);
    var q := Quad(a, b, 0);
    var s := q[..3];
    assert s[0] == q[0] && s[1] == q[1] && s[2] == q[2];
    assert [a, b, 0][..2] == [a, b];
  }

  lemma DecodeThree(a: Byte, b: Byte, c: Byte, rest: Bytes, tail: Bytes)
    requires DecodeQuads(rest) == Some(tail)
    ensures DecodeQuads(Quad(a, b, c) + rest) == Some([a, b, c] + tail)
  {
    TripleOfQuad(a, b, c);
    var q := Quad(a, b, c);
    var s := q + rest;
    assert s[0] == q[0] && s[1] == q[1] && s[2] == q[2] && s[3] == q[3];
    assert s[4..] == rest;
  }

  lemma {:induction false} DecodeQuadsEncode(bs: Bytes)
    ensures DecodeQuads(Encode(bs)) == Some(bs)
  {
    if |bs| == 0 {
    } else if |bs| == 1 {
      DecodeOne(bs[0]);
      assert bs == [bs[0]];
    } else if |bs| == 2 {
      DecodeTwo(bs[0], bs[1]);
      assert bs == [bs[0], bs[1]];
    } else {
      DecodeQuadsEncode(bs[3..]);
      DecodeThree(bs[0], bs[1], bs[2], Encode(bs[3..]), bs[3..]);
      assert bs == [bs[0], bs[1], bs[2]] + bs[3..];
    }
  }

  /** Every byte string survives the round trip. */
  lemma Base64RoundTrip(bs: Bytes)
    ensures Decode(Encode(bs)) == Some(bs)
  {
    EncodeIsClean(bs);
    CleanHasNoBreaks(Encode(bs));
    DecodeQuadsEncode(bs);
  }

  // ----- Decimal numbers -----

  const MAX_INT64 := 0x7fff_ffff_ffff_ffff
  const MIN_INT64 := -0x8000_0000_0000_0000

  function Decimal(n: nat): (s: Bytes)
    ensures s != [] && forall i | 0 <= i < |s| :: 48 <= s[i] <= 57
  {
    if n < 10 then [48 + n] else Decimal(n / 10) + [48 + n % 10]
  }

  function FormatInt(n: int): Bytes {
    if n < 0 then [MINUS] + Decimal(-n) else Decimal(n)
  }

  function ParseDigits(s: Bytes): Option<nat> {
    if s == [] then Some(0)
    else
      var last := s[|s| - 1];
      var init := ParseDigits(s[..|s| - 1]);
      if init.None? || last < 48 || last > 57 then None else Some(init.value * 10 + (last - 48))
  }

  /** strconv.ParseInt(s, 10, 64): an optional sign, at least one digit, and no more than 64 bits. */
  function ParseInt(s: Bytes): Option<int> {
    var negative := s != [] && s[0] == MINUS;
    var digits := if s != [] && (s[0] == MINUS || s[0] == PLUS) then s[1..] else s;
    var n := ParseDigits(digits);
    if digits == [] || n.None? then None
    else if negative then (if 0 - n.value < MIN_INT64 then None else Some(0 - n.value))
    else if n.value > MAX_INT64 then None
    else Some(n.value)
  }

  lemma {:induction false} DigitsRoundTrip(n: nat)
    ensures ParseDigits(Decimal(n)) == Some(n)
  {
    if n < 10 {
      assert Decimal(n)[..0] == [];
    } else {
      DigitsRoundTrip(n / 10);
      assert Decimal(n)[..|Decimal(n)| - 1] == Decimal(n / 10);
    }
  }

  lemma NegativeRoundTrip(n: nat)
    requires 0 < n <= -MIN_INT64
    ensures ParseInt([MINUS] + Decimal(n)) == Some(0 - n)
  {
    DigitsRoundTrip(n);
    assert ([MINUS] + Decimal(n))[1..] == Decimal(n);
  }

  lemma PositiveRoundTrip(n: nat)
    requires n <= MAX_INT64
    ensures ParseInt(Decimal(n)) == Some(n)
  {
    DigitsRoundTrip(n);
    assert 48 <= Decimal(n)[0] <= 57;
  }

  lemma DecimalRoundTrip(n: int)
    requires MIN_INT64 <= n <= MAX_INT64
    ensures ParseInt(FormatInt(n)) == Some(n)
  {
    if n < 0 { NegativeRoundTrip(-n); } else { PositiveRoundTrip(n); }
  }

  // ----- Separators -----

  /** strings.LastIndex; -1 when the byte does not occur. */
  function LastIndex(s: Bytes, c: Byte): (i: int)
    ensures -1 <= i < |s|
  {
    if s == [] then -1 else if s[|s| - 1] == c then |s| - 1 else LastIndex(s[..|s| - 1], c)
  }

  lemma {:induction false} LastIndexOfJoin(a: Bytes, c: Byte, b: Bytes)
    requires forall i | 0 <= i < |b| :: b[i] != c
    ensures LastIndex(a + [c] + b, c) == |a|
    decreases |b|
  {
    var s := a + [c] + b;
    if b == [] {
    } else {
      assert s[..|s| - 1] == a + [c] + b[..|b| - 1];
      LastIndexOfJoin(a, c, b[..|b| - 1]);
    }
  }

  /** strings.Split on a single byte. */
  function Split(s: Bytes, c: Byte): (parts: seq<Bytes>)
    ensures parts != []
  {
    if s == [] then [[]]
    else
      var rest := Split(s[1..], c);
      if s[0] == c then [[]] + rest else [[s[0]] + rest[0]] + rest[1..]
  }

  lemma {:induction false} SplitWhole(s: Bytes, c: Byte)
    requires forall i | 0 <= i < |s| :: s[i] != c
    ensures Split(s, c) == [s]
  {
    if s == [] {
    } else {
      SplitWhole(s[1..], c);
      assert s == [s[0]] + s[1..];
    }
  }

  lemma {:induction false} SplitOfJoin(a: Bytes, c: Byte, b: Bytes)
    requires forall i | 0 <= i < |a| :: a[i] != c
    requires forall i | 0 <= i < |b| :: b[i] != c
    ensures Split(a + [c] + b, c) == [a, b]
    decreases |a|
  {
    var s := a + [c] + b;
    if a == [] {
      assert s[1..] == b;
      SplitWhole(b, c);
    } else {
      assert s[1..] == a[1..] + [c] + b;
      SplitOfJoin(a[1..], c, b);
      assert a == [a[0]] + a[1..];
    }
  }

  // ----- The grant -----

  const SECOND := 1_000_000_000
  const HASH_LENGTH := 64
  const MIN_SECRET := 32

  /** SHA-256 in hexadecimal, and HMAC-SHA-256 of (key, message). */
  datatype Crypto = Crypto(hashToken: Bytes -> Bytes, mac: (Bytes, Bytes) -> Bytes)

  ghost predicate HexHashes(c: Crypto) {
    forall t :: |c.hashToken(t)| == HASH_LENGTH
  }

  /** time.Time.Unix: whole seconds, rounded down. */
  function Unix(t: int): int {
    t / SECOND
  }

  function PayloadText(hash: Bytes, seconds: int): Bytes {
    hash + [COLON] + FormatInt(seconds)
  }

  function Issue(c: Crypto, secret: Bytes, token: Bytes, expiresAt: int): Option<Bytes> {
    if |secret| < MIN_SECRET then None
    else
      var encoded := Encode(PayloadText(c.hashToken(token), Unix(expiresAt)));
      Some(encoded + [DOT] + Encode(c.mac(secret, encoded)))
  }

  datatype Payload = Payload(hash: Bytes, seconds: int)

  function ParsePayload(text: Bytes): Option<Payload> {
    var separator := LastIndex(text, COLON);
    if separator <= 0 || separator == |text| - 1 then None
    else if separator != HASH_LENGTH then None
    else if ParseInt(text[separator + 1..]).None? then None
    else Some(Payload(text[..separator], ParseInt(text[separator + 1..]).value))
  }

  predicate Blank(s: Bytes) {
    forall i | 0 <= i < |s| :: s[i] in {9, 10, 11, 12, 13, 32}
  }

  function Validate(c: Crypto, secret: Bytes, token: Bytes, grant: Bytes, now: int): bool {
    if |secret| < MIN_SECRET || Blank(grant) then false
    else
      var parts := Split(grant, DOT);
      if |parts| != 2 || Decode(parts[1]).None? then false
      else if Decode(parts[1]).value != c.mac(secret, parts[0]) then false
      else if Decode(parts[0]).None? || ParsePayload(Decode(parts[0]).value).None? then false
      else
        var payload := ParsePayload(Decode(parts[0]).value).value;
        payload.hash == c.hashToken(token) && payload.seconds * SECOND > now
  }

  /** What is printed is parsed back: the separator is found, and the number is the one written. */
  lemma PayloadRoundTrip(hash: Bytes, seconds: int)
    requires |hash| == HASH_LENGTH && MIN_INT64 <= seconds <= MAX_INT64
    ensures ParsePayload(PayloadText(hash, seconds)) == Some(Payload(hash, seconds))
  {
    var text, number := PayloadText(hash, seconds), FormatInt(seconds);
    LastIndexOfJoin(hash, COLON, number);
    DecimalRoundTrip(seconds);
    assert text[..HASH_LENGTH] == hash && text[HASH_LENGTH + 1..] == number;
  }

  lemma GrantParts(encoded: Bytes, signature: Bytes)
    requires Clean(encoded) && encoded != []
    ensures var grant := encoded + [DOT] + Encode(signature);
      !Blank(grant) && Split(grant, DOT) == [encoded, Encode(signature)] && Decode(Encode(signature)) == Some(signature)
  {
    EncodeIsClean(signature);
    SplitOfJoin(encoded, DOT, Encode(signature));
    Base64RoundTrip(signature);
    assert (encoded + [DOT] + Encode(signature))[|encoded|] == DOT;
  }

  /**
   * An issued grant is accepted for exactly those secrets that sign it alike, those tokens that hash alike,
   * and while the time is before the expiry rounded down to seconds.
   */
  lemma IssuedGrantValidates(c: Crypto, secret: Bytes, token: Bytes, expiresAt: int, secret': Bytes, token': Bytes, now: int)
    requires HexHashes(c) && |secret| >= MIN_SECRET && MIN_INT64 <= Unix(expiresAt) <= MAX_INT64
    ensures var encoded := Encode(PayloadText(c.hashToken(token), Unix(expiresAt)));
      Validate(c, secret', token', Issue(c, secret, token, expiresAt).value, now)
      <==> (&& |secret'| >= MIN_SECRET && c.mac(secret', encoded) == c.mac(secret, encoded)
            && c.hashToken(token') == c.hashToken(token) && now < Unix(expiresAt) * SECOND)
  {
    var text := PayloadText(c.hashToken(token), Unix(expiresAt));
    var encoded := Encode(text);
    EncodeIsClean(text);
    Base64RoundTrip(text);
    PayloadRoundTrip(c.hashToken(token), Unix(expiresAt));
    GrantParts(encoded, c.mac(secret, encoded));
  }

  // ----- Any string -----

  lemma {:induction false} LastIndexFound(s: Bytes, c: Byte)
    ensures var i := LastIndex(s, c);
      i >= 0 ==> s[i] == c && forall j | i < j < |s| :: s[j] != c
  {
    if s == [] {
    } else if s[|s| - 1] != c {
      LastIndexFound(s[..|s| - 1], c);
    }
  }

  /** Two parts are the two sides of the one separator. */
  lemma {:induction false} SplitInTwo(s: Bytes, c: Byte)
    requires |Split(s, c)| == 2
    ensures var parts := Split(s, c);
      && s == parts[0] + [c] + parts[1]
      && (forall i | 0 <= i < |parts[0]| :: parts[0][i] != c) && (forall i | 0 <= i < |parts[1]| :: parts[1][i] != c)
    decreases |s|
  {
    if s == [] {
    } else {
      var rest := Split(s[1..], c);
      if s[0] == c {
        SplitInOne(s[1..], c);
        assert s == [] + [c] + s[1..];
      } else {
        SplitInTwo(s[1..], c);
        assert s == [s[0]] + s[1..];
      }
    }
  }

  lemma {:induction false} SplitInOne(s: Bytes, c: Byte)
    requires |Split(s, c)| == 1
    ensures Split(s, c) == [s] && forall i | 0 <= i < |s| :: s[i] != c
    decreases |s|
  {
    if s == [] {
    } else {
      SplitInOne(s[1..], c);
      assert s == [s[0]] + s[1..];
    }
  }

  /** A text that parses is a 64-byte hash, a colon, and a number without one. */
  ghost predicate IsPayload(text: Bytes, hash: Bytes, number: Bytes, seconds: int) {
    && text == hash + [COLON] + number && |hash| == HASH_LENGTH
    && (forall i | 0 <= i < |number| :: number[i] != COLON) && ParseInt(number) == Some(seconds)
  }

  lemma ParsedPayload(text: Bytes)
    requires ParsePayload(text).Some?
    ensures var p := ParsePayload(text).value;
      IsPayload(text, p.hash, text[HASH_LENGTH + 1..], p.seconds)
  {
    LastIndexFound(text, COLON);
    assert text == text[..HASH_LENGTH] + [COLON] + text[HASH_LENGTH + 1..];
  }

  lemma PayloadParses(text: Bytes, hash: Bytes, number: Bytes, seconds: int)
    requires IsPayload(text, hash, number, seconds)
    ensures ParsePayload(text) == Some(Payload(hash, seconds))
  {
    LastIndexOfJoin(hash, COLON, number);
    assert text[..HASH_LENGTH] == hash && text[HASH_LENGTH + 1..] == number;
  }

  /** One dot; right of it the signature of the left; left of it a payload for this hash, not yet expired. */
  ghost predicate Signed(c: Crypto, secret: Bytes, grant: Bytes, encoded: Bytes, signature: Bytes) {
    && grant == encoded + [DOT] + signature
    && (forall i | 0 <= i < |encoded| :: encoded[i] != DOT) && (forall i | 0 <= i < |signature| :: signature[i] != DOT)
    && Decode(signature) == Some(c.mac(secret, encoded))
  }

  ghost predicate Current(encoded: Bytes, text: Bytes, hash: Bytes, number: Bytes, seconds: int, now: int) {
    Decode(encoded) == Some(text) && IsPayload(text, hash, number, seconds) && now < seconds * SECOND
  }

  ghost predicate Acceptable(c: Crypto, secret: Bytes, token: Bytes, grant: Bytes, now: int) {
    exists encoded, signature :: Signed(c, secret, grant, encoded, signature) && HasCurrent(encoded, c.hashToken(token), now)
  }

  ghost predicate HasCurrent(encoded: Bytes, hash: Bytes, now: int) {
    exists text, number, seconds :: Current(encoded, text, hash, number, seconds, now)
  }

  lemma AcceptedIsSigned(c: Crypto, secret: Bytes, token: Bytes, grant: Bytes, now: int)
    requires Validate(c, secret, token, grant, now)
    ensures |secret| >= MIN_SECRET && Acceptable(c, secret, token, grant, now)
  {
    var parts := Split(grant, DOT);
    SplitInTwo(grant, DOT);
    var text := Decode(parts[0]).value;
    ParsedPayload(text);
    assert Signed(c, secret, grant, parts[0], parts[1]);
    assert Current(parts[0], text, c.hashToken(token), text[HASH_LENGTH + 1..], ParsePayload(text).value.seconds, now);
  }

  /** What is signed is judged by its payload. */
  lemma SignedVerdict(c: Crypto, secret: Bytes, token: Bytes, grant: Bytes, now: int,
                      encoded: Bytes, signature: Bytes, text: Bytes, payload: Payload)
    requires |secret| >= MIN_SECRET && Signed(c, secret, grant, encoded, signature)
    requires Decode(encoded) == Some(text) && ParsePayload(text) == Some(payload)
    ensures Validate(c, secret, token, grant, now) <==> payload.hash == c.hashToken(token) && payload.seconds * SECOND > now
  {
    SplitOfJoin(encoded, DOT, signature);
    assert grant[|encoded|] == DOT;
  }

  /** Exactly which strings are accepted as grants. */
  lemma AcceptedExactlyWhen(c: Crypto, secret: Bytes, token: Bytes, grant: Bytes, now: int)
    ensures Validate(c, secret, token, grant, now) <==> |secret| >= MIN_SECRET && Acceptable(c, secret, token, grant, now)
  {
    if Validate(c, secret, token, grant, now) { AcceptedIsSigned(c, secret, token, grant, now); }
    if |secret| >= MIN_SECRET && Acceptable(c, secret, token, grant, now) {
      var encoded, signature :| Signed(c, secret, grant, encoded, signature) && HasCurrent(encoded, c.hashToken(token), now);
      var text, number, seconds :| Current(encoded, text, c.hashToken(token), number, seconds, now);
      PayloadParses(text, c.hashToken(token), number, seconds);
      SignedVerdict(c, secret, token, grant, now, encoded, signature, text, Payload(c.hashToken(token), seconds));
    }
  }

  /**
   * With a MAC that tells messages apart, a string that carries the signature of an issued grant is
   * accepted only with that grant's payload: for its token and before its expiry, and for nothing else.
   */
  lemma SignatureBindsThePayload(c: Crypto, secret: Bytes, token: Bytes, expiresAt: int,
                                 grant: Bytes, encoded: Bytes, signature: Bytes, token': Bytes, now: int)
    requires HexHashes(c) && |secret| >= MIN_SECRET && MIN_INT64 <= Unix(expiresAt) <= MAX_INT64
    requires forall a, b | c.mac(secret, a) == c.mac(secret, b) :: a == b
    requires Signed(c, secret, grant, encoded, signature)
    requires Decode(signature) == Some(c.mac(secret, Encode(PayloadText(c.hashToken(token), Unix(expiresAt)))))
    ensures encoded == Encode(PayloadText(c.hashToken(token), Unix(expiresAt)))
    ensures Validate(c, secret, token', grant, now) <==> c.hashToken(token') == c.hashToken(token) && now < Unix(expiresAt) * SECOND
  {
    var hash, seconds := c.hashToken(token), Unix(expiresAt);
    var text := PayloadText(hash, seconds);
    Base64RoundTrip(text);
    PayloadRoundTrip(hash, seconds);
    SignedVerdict(c, secret, token', grant, now, encoded, signature, text, Payload(hash, seconds));
  }

  // ----- The grant of VerifyAccess -----

  const DEFAULT_GRANT_TTL := 10 * 60 * SECOND

  function GrantTTL(configured: int): int {
    if configured <= 0 then DEFAULT_GRANT_TTL else configured
  }

  function GrantExpiresAt(now: int, ttl: int, tokenExpiresAt: int, shipmentExpiresAt: int): int {
    var e := now + GrantTTL(ttl);
    var e' := if tokenExpiresAt < e then tokenExpiresAt else e;
    if shipmentExpiresAt < e' then shipmentExpiresAt else e'
  }

  /** A grant from a verification never outlives its time to live, its token or its shipment, and loses less than a second. */
  lemma GrantNeverOutlives(c: Crypto, secret: Bytes, token: Bytes, verified: int, ttl: int, tokenExpiresAt: int,
                           shipmentExpiresAt: int, now: int)
    requires HexHashes(c) && |secret| >= MIN_SECRET
    requires MIN_INT64 <= Unix(GrantExpiresAt(verified, ttl, tokenExpiresAt, shipmentExpiresAt)) <= MAX_INT64
    ensures var e := GrantExpiresAt(verified, ttl, tokenExpiresAt, shipmentExpiresAt);
      var valid := Validate(c, secret, token, Issue(c, secret, token, e).value, now);
      var lifetime := if ttl > 0 then ttl else 10 * 60 * 1_000_000_000;
      && (valid ==> now < verified + lifetime && now < tokenExpiresAt && now < shipmentExpiresAt)
      && (now <= verified + lifetime - SECOND && now <= tokenExpiresAt - SECOND && now <= shipmentExpiresAt - SECOND ==> valid)
  {
    var e := GrantExpiresAt(verified, ttl, tokenExpiresAt, shipmentExpiresAt);
    IssuedGrantValidates(c, secret, token, e, secret, token, now);
  }

  /** Rounding down can leave nothing: a deadline in the current second gives a grant that is never accepted. */
  lemma GrantWithinTheSecond(c: Crypto, secret: Bytes, token: Bytes, expiresAt: int, now: int)
    requires HexHashes(c) && |secret| >= MIN_SECRET && MIN_INT64 <= Unix(expiresAt) <= MAX_INT64
    requires Unix(now) == Unix(expiresAt)
    ensures !Validate(c, secret, token, Issue(c, secret, token, expiresAt).value, now)
  {
    IssuedGrantValidates(c, secret, token, expiresAt, secret, token, now);
  }
}
