/** lib/auth.ts: password hashing and comparison (bcrypt), session-token
    signing and verification (JSON Web Tokens) and the Cookie-header parser
    that extracts the session token.

    bcrypt and jsonwebtoken are foreign libraries. They are modelled as
    records of functions handed to the operations that use them; the
    properties the rest of the model relies on (a hash verifies against its
    own password, a freshly signed token verifies to its claims) are stated
    as predicates over those records and assumed only where a lemma says so. */
module Auth {
  import opened Common

  // ---------------------------------------------------------------------
  // Password hashing

  /** A bcrypt salt: the cost factor and the random part genSalt draws. */
  datatype Salt = Salt(rounds: nat, random: string)

  /** bcrypt.hash and bcrypt.compare. */
  datatype Bcrypt = Bcrypt(hash: (string, Salt) -> string, compare: (string, string) -> bool)

  /** hashPassword uses genSalt(10): cost factor 10. */
  const SaltRounds: nat := 10

  /** hashPassword(password): a fresh salt of cost 10, then bcrypt.hash. The
      random part of the salt is a parameter because it comes from an entropy
      source. */
  function HashPassword(b: Bcrypt, password: string, saltRandom: string): (h: string)
    ensures h == b.hash(password, Salt(SaltRounds, saltRandom))
  {
    b.hash(password, Salt(SaltRounds, saltRandom))
  }

  /** comparePassword(password, hashed) delegates to bcrypt.compare. */
  function ComparePassword(b: Bcrypt, password: string, hashed: string): bool
  {
    b.compare(password, hashed)
  }

  /** What bcrypt guarantees: a hash verifies against the password it was
      made from, whatever the salt. */
  ghost predicate BcryptSound(b: Bcrypt)
  {
    forall p, s :: b.compare(p, b.hash(p, s))
  }

  /** The idealised other half: a hash never verifies against a different
      password (bcrypt makes this hold with overwhelming probability only). */
  ghost predicate BcryptRejectsOthers(b: Bcrypt)
  {
    forall p, q, s :: p != q ==> !b.compare(q, b.hash(p, s))
  }

  /** Under bcrypt's guarantee, comparing a password with its own hash
      succeeds. */
  lemma HashThenCompare(b: Bcrypt, password: string, saltRandom: string)
    requires BcryptSound(b)
    ensures ComparePassword(b, password, HashPassword(b, password, saltRandom))
  {
  }

  // ---------------------------------------------------------------------
  // Session tokens

  /** The payload createToken signs and verifyToken returns. */
  datatype Claims = Claims(userId: int, role: string)

  /** What jwt.verify does with a token: it returns the decoded payload or
      throws (bad signature, malformed token, expired). */
  datatype JwtOutcome = Decoded(claims: Claims) | Throws

  /** jwt.sign(payload, secret, { expiresIn }) and jwt.verify(token, secret),
      with the process-wide secret fixed inside them. */
  datatype Jwt = Jwt(sign: (Claims, string) -> string, verify: string -> JwtOutcome)

  /** The expiresIn option createToken passes: seven days. */
  const TokenExpiresIn: string := "7d"

  /** Seven days in seconds, the lifetime "7d" denotes. */
  const TokenLifetimeSeconds: nat := 7 * 24 * 60 * 60

  /** createToken(userId, role): signs exactly the pair (userId, role) with a
      seven-day expiry. */
  function CreateToken(jwt: Jwt, userId: int, role: string): (t: string)
    ensures t == jwt.sign(Claims(userId, role), TokenExpiresIn)
  {
    jwt.sign(Claims(userId, role), TokenExpiresIn)
  }

  /** verifyToken(token): never throws. A token the library rejects gives
      null, any other gives its decoded claims. */
  function VerifyToken(jwt: Jwt, token: string): (r: Option<Claims>)
    ensures r.None? <==> jwt.verify(token).Throws?
    ensures r.Some? ==> r.value == jwt.verify(token).claims
  {
    match jwt.verify(token)
    case Decoded(c) => Some(c)
    case Throws => None
  }

  /** What jsonwebtoken guarantees within the token's lifetime: verifying a
      token it signed yields the signed payload. */
  ghost predicate JwtSound(jwt: Jwt)
  {
    forall c, e :: jwt.verify(jwt.sign(c, e)) == Decoded(c)
  }

  /** A session token made by createToken verifies to the same user id and
      role (within its lifetime). */
  lemma CreatedTokenVerifies(jwt: Jwt, userId: int, role: string)
    requires JwtSound(jwt)
    ensures VerifyToken(jwt, CreateToken(jwt, userId, role)) == Some(Claims(userId, role))
  {
  }

  // ---------------------------------------------------------------------
  // Cookie header parsing

  /** The name of the session cookie. */
  const AuthCookieName: string := "auth_token"

  /** What getTokenFromCookie produces: null, a decoded value, or the
      exception decodeURIComponent throws on a malformed escape (which the
      parser does not catch). */
  datatype CookieLookup = NoToken | Token(value: string) | DecodeThrows

  /** The cookie separator the parser splits on: the two characters "; ". */
  const CookieSeparator: string := "; "

  /** `key` in `const [key, value] = cookie.split("=")`: the text before the
      first "=" (the whole segment when there is none). */
  function SegmentKey(segment: string): string
  {
    Split(segment, "=")[0]
  }

  /** `value` in the same destructuring: the text between the first and the
      second "=", or undefined when the segment has no "=". */
  function SegmentValue(segment: string): Option<string>
  {
    var parts := Split(segment, "=");
    if |parts| >= 2 then Some(parts[1]) else None
  }

  /** decodeURIComponent(value). The argument is converted to a string first,
      so an undefined value is decoded as the nine characters "undefined".
      The decoder itself is a parameter: None stands for a thrown URIError. */
  function DecodeValue(decode: string -> Option<string>, value: Option<string>): CookieLookup
  {
    var arg := if value.Some? then value.value else "undefined";
    match decode(arg)
    case Some(v) => Token(v)
    case None => DecodeThrows
  }

  /** A segment whose key is exactly `name`. */
  predicate HasKey(segment: string, name: string)
  {
    SegmentKey(segment) == name
  }

  /** The index of the first segment whose key is exactly `name`. */
  function FirstSegmentNamed(segments: seq<string>, name: string): (r: Option<nat>)
    ensures r.Some? ==> r.value < |segments| && HasKey(segments[r.value], name)
    ensures r.Some? ==> forall j :: 0 <= j < r.value ==> !HasKey(segments[j], name)
    ensures r.None? ==> forall j :: 0 <= j < |segments| ==> !HasKey(segments[j], name)
  {
    if segments == [] then None
    else if HasKey(segments[0], name) then Some(0)
    else
      match FirstSegmentNamed(segments[1..], name)
      case None => None
      case Some(k) => Some(k + 1)
  }

  /** `cookieString.split("; ")`. */
  function Segments(header: string): seq<string>
  {
    Split(header, CookieSeparator)
  }

  /** The value getTokenFromCookie computes, as a function of the header and
      the decoder. */
  function TokenFromCookie(header: Option<string>, decode: string -> Option<string>): CookieLookup
  {
    if Falsy(header) then NoToken else LookupSegments(Segments(header.value), AuthCookieName, decode)
  }

  /** Null for a missing or empty header; otherwise the decoded value of the
      first "; "-separated segment whose key is exactly "auth_token"; null
      when no segment has that key. */
  lemma TokenFromCookieMeans(header: Option<string>, decode: string -> Option<string>)
    ensures var r := TokenFromCookie(header, decode);
      (Falsy(header) ==> r == NoToken) &&
      (!Falsy(header) && r == NoToken ==>
        forall j :: 0 <= j < |Segments(header.value)| ==> !HasKey(Segments(header.value)[j], AuthCookieName))
    ensures var r := TokenFromCookie(header, decode);
      r != NoToken ==>
        !Falsy(header) &&
        exists k :: 0 <= k < |Segments(header.value)| &&
          HasKey(Segments(header.value)[k], AuthCookieName) &&
          (forall j :: 0 <= j < k ==> !HasKey(Segments(header.value)[j], AuthCookieName)) &&
          r == DecodeValue(decode, SegmentValue(Segments(header.value)[k]))
  {
    if !Falsy(header) {
      var segments := Segments(header.value);
      match FirstSegmentNamed(segments, AuthCookieName)
      case None =>
      case Some(k) =>
        assert DecodeValue(decode, SegmentValue(segments[k])) == TokenFromCookie(header, decode);
    }
  }

  /** The decoded value of the first segment named `name`, NoToken when
      there is none. */
  function LookupSegments(segments: seq<string>, name: string, decode: string -> Option<string>): CookieLookup
  {
    match FirstSegmentNamed(segments, name)
    case None => NoToken
    case Some(k) => DecodeValue(decode, SegmentValue(segments[k]))
  }

  /** getTokenFromCookie(cookieString): the empty-header check, then the
      loop over the "; "-separated segments. */
  method GetTokenFromCookie(header: Option<string>, decode: string -> Option<string>)
    returns (r: CookieLookup)
    ensures r == TokenFromCookie(header, decode)
  {
    if Falsy(header) {
      return NoToken;
    }
    r := ScanSegments(Segments(header.value), AuthCookieName, decode);
  }

  /** The `for (const cookie of cookies)` loop: returns at the first segment
      whose key is "auth_token", and null after the last. */
  method ScanSegments(cookies: seq<string>, name: string, decode: string -> Option<string>)
    returns (r: CookieLookup)
    ensures r == LookupSegments(cookies, name, decode)
  {
    var i := 0;
    while i < |cookies|
      invariant 0 <= i <= |cookies|
      invariant forall j :: 0 <= j < i ==> !HasKey(cookies[j], name)
    {
      var key, value := SegmentKey(cookies[i]), SegmentValue(cookies[i]);
      if key == name {
        assert FirstSegmentNamed(cookies, name) == Some(i);
        return DecodeValue(decode, value);
      }
      i := i + 1;
    }
    return NoToken;
  }

  /** A header that does not contain "; " is a single segment: only its
      own key decides the result. */
  lemma {:induction false} SingleSegmentHeader(h: string, decode: string -> Option<string>)
    requires h != "" && !Contains(h, CookieSeparator)
    ensures TokenFromCookie(Some(h), decode) ==
      if SegmentKey(h) == AuthCookieName then DecodeValue(decode, SegmentValue(h)) else NoToken
  {
    SplitWithoutSeparator(h, CookieSeparator);
  }

  /** Splitting a segment `key=rest` whose key has no "=": the key is `key`
      and the value is the text of `rest` up to its own first "=". */
  lemma {:induction false} KeyValueOfSegment(key: string, rest: string)
    requires forall j :: 0 <= j < |key| ==> key[j] != '='
    ensures SegmentKey(key + "=" + rest) == key
    ensures SegmentValue(key + "=" + rest) == Some(Split(rest, "=")[0])
  {
    var seg := key + "=" + rest;
    assert OccursAt(seg, "=", |key|);
    assert forall k :: 0 <= k < |key| ==> !OccursAt(seg, "=", k) by {
      forall k | 0 <= k < |key| ensures !OccursAt(seg, "=", k) {
        assert seg[k] == key[k];
      }
    }
    IndexOfIsFirst(seg, "=");
    assert IndexOf(seg, "=") == Some(|key|);
    assert seg[..|key|] == key;
    assert seg[|key| + 1..] == rest;
  }

  /** Segments are separated only by the exact two characters "; ": in
      "a=1;auth_token=x" there is no space, so the whole header is one segment
      named "a" and the session cookie is not found. */
  lemma CookieNeedsSemicolonSpace(h: string, decode: string -> Option<string>)
    requires h == "a=1;auth_token=x"
    ensures TokenFromCookie(Some(h), decode) == NoToken
  {
    var key, rest := "a", "1;auth_token=x";
    assert h == key + "=" + rest;
    MissingCharMeansNoOccurrence(h, CookieSeparator, 1);
    SingleSegmentHeader(h, decode);
    KeyValueOfSegment(key, rest);
  }

  /** A one-segment header `key=v=w` (keys and `v` without "="): only `v`,
      the text between the first and the second "=", is decoded. */
  lemma {:induction false} SegmentWithTwoEquals(key: string, v: string, w: string, decode: string -> Option<string>)
    requires forall j :: 0 <= j < |key| ==> key[j] != '='
    requires forall j :: 0 <= j < |v| ==> v[j] != '='
    requires !Contains(key + "=" + v + "=" + w, CookieSeparator)
    ensures TokenFromCookie(Some(key + "=" + v + "=" + w), decode) ==
      if key == AuthCookieName then DecodeValue(decode, Some(v)) else NoToken
  {
    var h := key + "=" + v + "=" + w;
    assert h == key + "=" + (v + "=" + w);
    SingleSegmentHeader(h, decode);
    KeyValueOfSegment(key, v + "=" + w);
    KeyValueOfSegment(v, w);
  }

  /** Only the text between the first and the second "=" is kept: for
      "auth_token=ab=cd" the value decoded is "ab". */
  lemma CookieValueStopsAtSecondEquals(h: string, decode: string -> Option<string>)
    requires h == "auth_token=ab=cd"
    ensures TokenFromCookie(Some(h), decode) == DecodeValue(decode, Some("ab"))
  {
    var key, v, w := "auth_token", "ab", "cd";
    assert h == key + "=" + v + "=" + w;
    MissingCharMeansNoOccurrence(h, CookieSeparator, 1);
    SegmentWithTwoEquals(key, v, w, decode);
  }

  /** A segment with no "=" is all key, and its value is undefined. */
  lemma {:induction false} SegmentWithoutEquals(seg: string)
    requires forall j :: 0 <= j < |seg| ==> seg[j] != '='
    ensures SegmentKey(seg) == seg && SegmentValue(seg) == None
  {
    MissingCharMeansNoOccurrence(seg, "=", 0);
    SplitWithoutSeparator(seg, "=");
  }

  /** A segment that is exactly "auth_token", with no "=", has an undefined
      value, which decodeURIComponent turns into the string "undefined". */
  lemma BareCookieNameDecodesUndefined(h: string, decode: string -> Option<string>)
    requires h == "auth_token"
    ensures TokenFromCookie(Some(h), decode) == DecodeValue(decode, None)
  {
    MissingCharMeansNoOccurrence(h, CookieSeparator, 1);
    SegmentWithoutEquals(h);
    SingleSegmentHeader(h, decode);
  }

}
