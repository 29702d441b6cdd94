/**
  The access-token codec of auth/jwt.go: `MakeJWT` issues a JSON Web Token (RFC 7519) signed with
  HMAC SHA-256 (section 3.2 of RFC 7518); `ValidateJWT` parses and checks it in a fixed order;
  `GetBearerToken` strips the `Bearer ` prefix of an Authorization header (section 2.1 of
  RFC 6750).

  HMAC is modelled by `Sign`, an injective function of (algorithm, claims, secret): a signature
  verifies under a secret exactly when it was made with that secret. The compact serialization
  is modelled by the self-delimiting `Fields` encoding. The clock is the parameter `now`, in
  whole seconds.
*/
module Jwt {
  import opened Wrappers
  import opened Fields
  import Uuid
  import Text
  import Durations

  /** The `iss` claim `MakeJWT` writes and `ValidateJWT` demands (section 4.1.1 of RFC 7519). */
  const Issuer: string := "goqueue"

  /** The `alg` header. The key function of ValidateJWT accepts exactly the HMAC family. */
  datatype Alg = HS256 | HS384 | HS512 | NonHmac(name: string)

  predicate IsHmac(a: Alg) {
    !a.NonHmac?
  }

  /**
    Registered claims `iss`, `sub`, `iat`, `exp` (sections 4.1.1, 4.1.2, 4.1.6, 4.1.4 of
    RFC 7519) and the private claim `usertype`.
  */
  datatype Claims = Claims(iss: string, sub: string, iat: Option<int>, exp: int, userType: string)

  datatype Token = Token(alg: Alg, claims: Claims, mac: string)

  function EncodeAlg(a: Alg): string {
    match a
    case HS256 => Field("0") + Field("")
    case HS384 => Field("1") + Field("")
    case HS512 => Field("2") + Field("")
    case NonHmac(n) => Field("3") + Field(n)
  }

  function ReadAlg(s: string): (r: Option<(Alg, string)>)
    ensures r.Some? ==> |r.value.1| < |s|
  {
    match ReadField(s)
    case None => None
    case Some((tag, s1)) =>
      match ReadField(s1)
      case None => None
      case Some((name, s2)) =>
        if tag == "0" && name == "" then Some((HS256, s2))
        else if tag == "1" && name == "" then Some((HS384, s2))
        else if tag == "2" && name == "" then Some((HS512, s2))
        else if tag == "3" then Some((NonHmac(name), s2))
        else None
  }

  function EncodeClaims(c: Claims): string {
    Field(c.iss) + Field(c.sub) + OptIntField(c.iat) + IntField(c.exp) + Field(c.userType)
  }

  function ReadClaims(s: string): (r: Option<(Claims, string)>)
    ensures r.Some? ==> |r.value.1| < |s|
  {
    match ReadField(s)
    case None => None
    case Some((iss, s1)) =>
      match ReadField(s1)
      case None => None
      case Some((sub, s2)) =>
        match ReadOptInt(s2)
        case None => None
        case Some((iat, s3)) =>
          match ReadInt(s3)
          case None => None
          case Some((exp, s4)) =>
            match ReadField(s4)
            case None => None
            case Some((ut, s5)) => Some((Claims(iss, sub, iat, exp, ut), s5))
  }

  /** The HMAC of header and claims under `secret`. */
  function Sign(alg: Alg, c: Claims, secret: string): string {
    EncodeAlg(alg) + EncodeClaims(c) + Field(secret)
  }

  /** Compact serialization of a signed token. */
  function Serialize(t: Token): string {
    EncodeAlg(t.alg) + EncodeClaims(t.claims) + Field(t.mac)
  }

  /** Structural parsing: None for text that is not a serialized token. */
  function Parse(s: string): Option<Token> {
    match ReadAlg(s)
    case None => None
    case Some((alg, s1)) =>
      match ReadClaims(s1)
      case None => None
      case Some((c, s2)) =>
        match ReadField(s2)
        case None => None
        case Some((mac, s3)) => if s3 == "" then Some(Token(alg, c, mac)) else None
  }

  lemma ReadAlgOfEncodeAlg(a: Alg, rest: string)
    ensures ReadAlg(EncodeAlg(a) + rest) == Some((a, rest))
  {
    match a
    case HS256 => ReadAlgOfFields("0", "", rest);
    case HS384 => ReadAlgOfFields("1", "", rest);
    case HS512 => ReadAlgOfFields("2", "", rest);
    case NonHmac(n) => ReadAlgOfFields("3", n, rest);
  }

  /** ReadAlg reads back the tag and name fields it was given. */
  lemma ReadAlgOfFields(tag: string, name: string, rest: string)
    ensures ReadAlg(Field(tag) + Field(name) + rest)
         == (if tag == "0" && name == "" then Some((HS256, rest))
             else if tag == "1" && name == "" then Some((HS384, rest))
             else if tag == "2" && name == "" then Some((HS512, rest))
             else if tag == "3" then Some((NonHmac(name), rest))
             else None)
  {
    assert Field(tag) + Field(name) + rest == Field(tag) + (Field(name) + rest);
    ReadFieldOfField(tag, Field(name) + rest);
    ReadFieldOfField(name, rest);
  }

  lemma ReadClaimsOfEncodeClaims(c: Claims, rest: string)
    ensures ReadClaims(EncodeClaims(c) + rest) == Some((c, rest))
  {
    var s4 := Field(c.userType) + rest;
    var s3 := IntField(c.exp) + s4;
    var s2 := OptIntField(c.iat) + s3;
    var s1 := Field(c.sub) + s2;
    EncodeClaimsFields(c, rest);
    ReadFieldOfField(c.iss, s1);
    ReadFieldOfField(c.sub, s2);
    ReadOptIntOfOptIntField(c.iat, s3);
    ReadIntOfIntField(c.exp, s4);
    ReadFieldOfField(c.userType, rest);
    ReadClaimsSteps(Field(c.iss) + s1, c.iss, s1, c.sub, s2, c.iat, s3, c.exp, s4, c.userType, rest);
  }

  /** The claims' encoding followed by `rest` is its five fields, each followed by the rest. */
  lemma EncodeClaimsFields(c: Claims, rest: string)
    ensures EncodeClaims(c) + rest
         == Field(c.iss) + (Field(c.sub) + (OptIntField(c.iat) + (IntField(c.exp) + (Field(c.userType) + rest))))
  {
  }

  /** ReadClaims chains its five readers. */
  lemma ReadClaimsSteps(s: string, iss: string, s1: string, sub: string, s2: string, iat: Option<int>, s3: string,
                        exp: int, s4: string, ut: string, s5: string)
    requires ReadField(s) == Some((iss, s1))
    requires ReadField(s1) == Some((sub, s2))
    requires ReadOptInt(s2) == Some((iat, s3))
    requires ReadInt(s3) == Some((exp, s4))
    requires ReadField(s4) == Some((ut, s5))
    ensures ReadClaims(s) == Some((Claims(iss, sub, iat, exp, ut), s5))
  {
  }

  /** Parsing recovers every serialized token. */
  lemma ParseSerialize(t: Token)
    ensures Parse(Serialize(t)) == Some(t)
  {
    var s2 := Field(t.mac);
    var s1 := EncodeClaims(t.claims) + s2;
    assert Serialize(t) == EncodeAlg(t.alg) + s1;
    ReadAlgOfEncodeAlg(t.alg, s1);
    ReadClaimsOfEncodeClaims(t.claims, s2);
    ReadFieldOfField(t.mac, "");
    assert s2 == Field(t.mac) + "";
  }

  /** A signature determines the algorithm, the claims and the secret it was made with. */
  lemma SignInjective(a1: Alg, c1: Claims, k1: string, a2: Alg, c2: Claims, k2: string)
    requires Sign(a1, c1, k1) == Sign(a2, c2, k2)
    ensures a1 == a2 && c1 == c2 && k1 == k2
  {
    assert Parse(Serialize(Token(a1, c1, k1))) == Some(Token(a1, c1, k1)) by { ParseSerialize(Token(a1, c1, k1)); }
    assert Parse(Serialize(Token(a2, c2, k2))) == Some(Token(a2, c2, k2)) by { ParseSerialize(Token(a2, c2, k2)); }
    assert Serialize(Token(a1, c1, k1)) == Sign(a1, c1, k1);
    assert Serialize(Token(a2, c2, k2)) == Sign(a2, c2, k2);
  }

  /**
    `MakeJWT(ID, userType, tokenSecret, expirationMinutes)` at clock `now`: issuer "goqueue",
    issued now, expiring `time.Duration(expirationMinutes) * time.Minute` later (an int64 product
    that wraps, `Durations.MinuteOffset`), subject `id` (the model's text for `ID.String()`),
    private claim `usertype`, signed HS256 with the secret.
  */
  function MakeJWT(id: string, userType: string, secret: string, expirationMinutes: int, now: int): (token: string) {
    var c := Claims(Issuer, id, Some(now), now + Durations.MinuteOffset(expirationMinutes), userType);
    Serialize(Token(HS256, c, Sign(HS256, c, secret)))
  }

  /** The distinct error values ValidateJWT returns. */
  datatype ValidationError =
    | Malformed                 // the parser cannot read the token
    | UnexpectedSigningMethod   // the key function refuses a non-HMAC algorithm
    | SignatureInvalid          // the HMAC does not verify under the secret
    | TokenExpired              // jwt.ErrTokenExpired
    | TokenUsedBeforeIssued     // jwt.ErrTokenUsedBeforeIssued
    | TokenInvalidIssuer        // jwt.ErrTokenInvalidIssuer
    | TokenInvalidId            // jwt.ErrTokenInvalidId

  /** The Go triple `(uuid.UUID, string, error)`, the UUID as its `String()` text. */
  datatype Validation = Validation(id: string, userType: string, err: Option<ValidationError>)

  function Fail(e: ValidationError): Validation {
    Validation(Uuid.NilText, "", Some(e))
  }

  /** The token verifies under `secret`: it parses, names an HMAC algorithm and carries its HMAC. */
  predicate Authentic(t: Token, secret: string) {
    IsHmac(t.alg) && t.mac == Sign(t.alg, t.claims, secret)
  }

  /** Every claim check of ValidateJWT passes at `now`. */
  predicate ClaimsAcceptable(c: Claims, now: int) {
    && !(c.exp < now)
    && !(c.iat.Some? && c.iat.value > now)
    && c.iss == Issuer
    && Uuid.Parse(c.sub).Some?
  }

  /**
    `ValidateJWT(tokenString, tokenSecret)` at clock `now`. Checks, in order: parse, signing
    method, signature, `exp` strictly before now, `iat` strictly after now (skipped when
    absent), issuer, subject parses as a UUID. Every failure returns the nil UUID and user type
    "".
  */
  function ValidateJWT(token: string, secret: string, now: int): (r: Validation)
    ensures r.err.Some? ==> r.id == Uuid.NilText && r.userType == ""
    ensures r.err.None? <==>
      Parse(token).Some? && Authentic(Parse(token).value, secret) && ClaimsAcceptable(Parse(token).value.claims, now)
    ensures r.err.None? ==>
      var c := Parse(token).value.claims;
      r.userType == c.userType && r.id == Uuid.Format(Uuid.Parse(c.sub).value)
    ensures r.err == Some(Malformed) <==> Parse(token).None?
    ensures r.err == Some(TokenExpired) <==>
      Parse(token).Some? && Authentic(Parse(token).value, secret) && Parse(token).value.claims.exp < now
    ensures r.err == Some(TokenUsedBeforeIssued) <==>
      && Parse(token).Some? && Authentic(Parse(token).value, secret)
      && var c := Parse(token).value.claims;
      && !(c.exp < now) && c.iat.Some? && c.iat.value > now
    ensures r.err == Some(TokenInvalidIssuer) <==>
      && Parse(token).Some? && Authentic(Parse(token).value, secret)
      && var c := Parse(token).value.claims;
      && !(c.exp < now) && !(c.iat.Some? && c.iat.value > now) && c.iss != Issuer
  {
    match Parse(token)
    case None => Fail(Malformed)
    case Some(t) =>
      if !IsHmac(t.alg) then Fail(UnexpectedSigningMethod)
      else if t.mac != Sign(t.alg, t.claims, secret) then Fail(SignatureInvalid)
      else if t.claims.exp < now then Fail(TokenExpired)
      else if t.claims.iat.Some? && t.claims.iat.value > now then Fail(TokenUsedBeforeIssued)
      else if t.claims.iss != Issuer then Fail(TokenInvalidIssuer)
      else
        match Uuid.Parse(t.claims.sub)
        case None => Fail(TokenInvalidId)
        case Some(digits) => Validation(Uuid.Format(digits), t.claims.userType, None)
  }

  /**
    What MakeJWT writes into the token. The expiry is `minutes` minutes after `now` while the
    lifetime fits in an int64 Duration, and wherever the wrapped Duration lands beyond that.
  */
  lemma MakeJWTClaims(id: string, userType: string, secret: string, minutes: int, now: int)
    ensures Parse(MakeJWT(id, userType, secret, minutes, now)).Some?
    ensures
      var t := Parse(MakeJWT(id, userType, secret, minutes, now)).value;
      && t.alg == HS256 && Authentic(t, secret)
      && t.claims == Claims(Issuer, id, Some(now), now + Durations.MinuteOffset(minutes), userType)
    ensures -Durations.MaxMinutes <= minutes <= Durations.MaxMinutes ==>
      Parse(MakeJWT(id, userType, secret, minutes, now)).value.claims.exp == now + minutes * 60
  {
    var c := Claims(Issuer, id, Some(now), now + Durations.MinuteOffset(minutes), userType);
    ParseSerialize(Token(HS256, c, Sign(HS256, c, secret)));
  }

  /**
    Round trip: a token just made for a UUID (canonical text, as `uuid.UUID` prints) validates
    under the same secret, at any time from its issue up to its expiry, to the same ID and user
    type. A lifetime that wraps below zero leaves no such time (`WrappedLifetimeBornExpired`).
  */
  lemma ValidateMadeToken(id: string, userType: string, secret: string, minutes: int, now: int, later: int)
    requires Uuid.IsCanonical(id)
    requires now <= later <= now + Durations.MinuteOffset(minutes)
    ensures ValidateJWT(MakeJWT(id, userType, secret, minutes, now), secret, later) == Validation(id, userType, None)
  {
    MakeJWTClaims(id, userType, secret, minutes, now);
    Uuid.CanonicalRoundTrip(id);
  }

  /** A token made with one secret never validates under another. */
  lemma WrongSecretFails(id: string, userType: string, secret: string, other: string, minutes: int, now: int, later: int)
    requires other != secret
    ensures ValidateJWT(MakeJWT(id, userType, secret, minutes, now), other, later) == Fail(SignatureInvalid)
  {
    MakeJWTClaims(id, userType, secret, minutes, now);
    var t := Parse(MakeJWT(id, userType, secret, minutes, now)).value;
    if t.mac == Sign(t.alg, t.claims, other) {
      SignInjective(t.alg, t.claims, secret, t.alg, t.claims, other);
    }
  }

  /** A token fails as expired once its lifetime has passed, whatever else it says. */
  lemma ExpiredAfterLifetime(id: string, userType: string, secret: string, minutes: int, now: int, later: int)
    requires later > now + Durations.MinuteOffset(minutes)
    ensures ValidateJWT(MakeJWT(id, userType, secret, minutes, now), secret, later) == Fail(TokenExpired)
  {
    MakeJWTClaims(id, userType, secret, minutes, now);
  }

  /** A token for an identifier that is not UUID text (a public ID, say) never validates. */
  lemma NonUuidSubjectFails(id: string, userType: string, secret: string, minutes: int, now: int)
    requires Durations.MinuteOffset(minutes) >= 0
    requires Uuid.Parse(id).None?
    ensures ValidateJWT(MakeJWT(id, userType, secret, minutes, now), secret, now) == Fail(TokenInvalidId)
  {
    MakeJWTClaims(id, userType, secret, minutes, now);
  }

  /**
    A lifetime whose Duration wraps below zero gives a token that is expired when it is made:
    200,000,000 minutes, for one, is refused at once.
  */
  lemma WrappedLifetimeBornExpired(id: string, userType: string, secret: string, now: int, later: int)
    requires later >= now
    ensures ValidateJWT(MakeJWT(id, userType, secret, 200_000_000, now), secret, later) == Fail(TokenExpired)
  {
    Durations.LargeLifetimesWrapNegative();
    ExpiredAfterLifetime(id, userType, secret, 200_000_000, now, later);
  }

  datatype BearerError = NoAuthorizationHeader

  /**
    `GetBearerToken`: `authorization` is `headers.Get("Authorization")`, which is "" when the
    header is absent. Empty is an error; otherwise one leading "Bearer " is removed, if present.
  */
  function GetBearerToken(authorization: string): (r: Result<string, BearerError>)
    ensures r.Err? <==> authorization == ""
    ensures r.Ok? && Text.StartsWith(authorization, "Bearer ") ==> "Bearer " + r.value == authorization
    ensures r.Ok? && !Text.StartsWith(authorization, "Bearer ") ==> r.value == authorization
  {
    if authorization == "" then Err(NoAuthorizationHeader)
    else Ok(Text.TrimPrefix(authorization, "Bearer "))
  }

  /** The header `"Bearer " + token` gives back exactly `token`: one prefix is removed, not more. */
  lemma BearerRoundTrip(token: string)
    ensures GetBearerToken("Bearer " + token) == Ok(token)
  {
    assert Text.StartsWith("Bearer " + token, "Bearer ");
    assert ("Bearer " + token)[|"Bearer "|..] == token;
  }
}
