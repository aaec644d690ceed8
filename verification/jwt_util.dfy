/** `JwtUtil`: issues and reads the account token with the claims `sub` (user
    id), `email` and `username`, valid for `expirationTime` seconds. Each
    operation receives the clock reading it would take from `Instant.now()` or
    `new Date()`; a token is the decoded JWS structure of `Jws`. */
module JwtUtil {
  import opened Wrappers
  import opened Account
  import opened Jws

  const DefaultSecret := "mySecretKeyForJWTTokenGenerationThatIsLongEnough"
  const DefaultExpiration := 3600

  /** The configured signing key and time-to-live in seconds. */
  datatype JwtUtil = JwtUtil(secretKey: Key, expirationTime: int)

  /** The constructor derives the key from the configured secret. */
  function New(secret: string, expirationTime: int): (u: JwtUtil)
    ensures u.expirationTime == expirationTime
    ensures forall s :: u.secretKey == KeyFor(s) <==> s == secret
  {
    JwtUtil(KeyFor(secret), expirationTime)
  }

  /** The custom claims of a token: a null email or username is left out. */
  function ProfileClaims(email: Option<string>, username: Option<string>): (m: map<string, string>)
    ensures "email" in m <==> email.Some?
    ensures email.Some? ==> m["email"] == email.value
    ensures "username" in m <==> username.Some?
    ensures username.Some? ==> m["username"] == username.value
    ensures m.Keys <= {"email", "username"}
  {
    var m := if email.Some? then map["email" := email.value] else map[];
    if username.Some? then m["username" := username.value] else m
  }

  /** `generateToken`: issued now, expiring `expirationTime` seconds later. */
  function GenerateToken(u: JwtUtil, userId: Option<string>, email: Option<string>, username: Option<string>, now: Instant): (t: Token)
    ensures t.Signed? && t.tag == Sign(u.secretKey, t.claims)
    ensures t.claims.subject == userId
    ensures t.claims.issuedAt == now
    ensures t.claims.expiration == t.claims.issuedAt + 1000 * u.expirationTime
    ensures t.claims.custom == ProfileClaims(email, username)
  {
    Issue(u.secretKey, userId, ProfileClaims(email, username), now, now + 1000 * u.expirationTime)
  }

  /** `extractClaims`: verified claims or the parser's refusal. */
  function ExtractClaims(u: JwtUtil, token: Token, now: Instant): (r: Result<Claims, JwtError>)
    ensures r.Success? ==> token.Signed? && token.tag == Sign(u.secretKey, r.value) && token.claims == r.value
    ensures r.Success? ==> !(r.value.expiration < now)
    ensures r.Failure? ==> r.error in {Malformed, SignatureMismatch, Expired}
  {
    Parse(u.secretKey, token, now)
  }

  function ExtractUserId(u: JwtUtil, token: Token, now: Instant): (r: Result<Option<string>, JwtError>)
    ensures r.Success? <==> ExtractClaims(u, token, now).Success?
    ensures r.Success? ==> r.value == token.claims.subject
  {
    var claims :- ExtractClaims(u, token, now);
    Success(claims.subject)
  }

  /** A custom string claim, null when absent. */
  function Custom(claims: Claims, name: string): Option<string> {
    if name in claims.custom then Some(claims.custom[name]) else None
  }

  function ExtractEmail(u: JwtUtil, token: Token, now: Instant): (r: Result<Option<string>, JwtError>)
    ensures r.Success? <==> ExtractClaims(u, token, now).Success?
    ensures r.Success? ==> r.value == Custom(token.claims, "email")
  {
    var claims :- ExtractClaims(u, token, now);
    Success(Custom(claims, "email"))
  }

  function ExtractUsername(u: JwtUtil, token: Token, now: Instant): (r: Result<Option<string>, JwtError>)
    ensures r.Success? <==> ExtractClaims(u, token, now).Success?
    ensures r.Success? ==> r.value == Custom(token.claims, "username")
  {
    var claims :- ExtractClaims(u, token, now);
    Success(Custom(claims, "username"))
  }

  /** `isTokenExpired`: the parser reads the clock at `parsedAt`, then the
      expiration is compared strictly with a second reading `checkedAt`. */
  function IsTokenExpired(u: JwtUtil, token: Token, parsedAt: Instant, checkedAt: Instant): (r: Result<bool, JwtError>)
    ensures r.Success? <==> ExtractClaims(u, token, parsedAt).Success?
    ensures r.Success? ==> (r.value <==> token.claims.expiration < checkedAt)
    ensures r.Success? && checkedAt <= parsedAt ==> !r.value
  {
    var claims :- ExtractClaims(u, token, parsedAt);
    Success(claims.expiration < checkedAt)
  }

  /** `validateToken`: `extractUserId` parses the token with the clock at
      `subjectRead`, then `isTokenExpired` parses it again at `expiryRead` and
      compares the expiration with `new Date()` read at `checkedAt`. A token
      without a subject makes the comparison dereference null; a token that
      expires between the two parses makes the second parse throw. */
  function ValidateToken(u: JwtUtil, token: Token, userId: string, subjectRead: Instant, expiryRead: Instant, checkedAt: Instant): (r: Result<bool, JwtError>)
    ensures r.Success? ==> ExtractClaims(u, token, subjectRead).Success? && token.claims.subject.Some?
    ensures r == Success(true) <==>
      && ExtractClaims(u, token, subjectRead).Success?
      && token.claims.subject == Some(userId)
      && ExtractClaims(u, token, expiryRead).Success?
      && !(token.claims.expiration < checkedAt)
    ensures r == Failure(NullSubject) <==> ExtractClaims(u, token, subjectRead).Success? && token.claims.subject.None?
    ensures r == Failure(Expired) <==>
      && token.Signed? && token.tag == Sign(u.secretKey, token.claims)
      && (token.claims.expiration < subjectRead || (token.claims.subject == Some(userId) && token.claims.expiration < expiryRead))
    ensures ExtractClaims(u, token, subjectRead).Failure? ==> r == Failure(ExtractClaims(u, token, subjectRead).error)
    ensures ExtractClaims(u, token, subjectRead).Success? ==> r.Success? || r.error == NullSubject || r.error == Expired
  {
    var subject :- ExtractUserId(u, token, subjectRead);
    if subject.None? then Failure(NullSubject)
    else if subject.value != userId then Success(false)
    else
      match IsTokenExpired(u, token, expiryRead, checkedAt)
      case Success(expired) => Success(!expired)
      case Failure(e) => Failure(e)
  }

  /** Round trip: under the issuing configuration and before expiry, the three
      extractors return exactly what the token was generated from. */
  lemma ExtractGenerated(u: JwtUtil, userId: Option<string>, email: Option<string>, username: Option<string>, now: Instant, later: Instant)
    requires now <= later <= now + 1000 * u.expirationTime
    ensures var t := GenerateToken(u, userId, email, username, now);
      && ExtractUserId(u, t, later) == Success(userId)
      && ExtractEmail(u, t, later) == Success(email)
      && ExtractUsername(u, t, later) == Success(username)
  {
  }

  /** A token generated under one secret is refused by a `JwtUtil` built from a
      different secret. */
  lemma OtherSecretRejected(s1: string, s2: string, ttl: int, userId: Option<string>, email: Option<string>, username: Option<string>, now: Instant, later: Instant)
    requires s1 != s2
    ensures ExtractClaims(New(s2, ttl), GenerateToken(New(s1, ttl), userId, email, username, now), later)
      == Failure(SignatureMismatch)
  {
  }

  /** A garbled token string is refused. */
  lemma GarbledRejected(u: JwtUtil, text: string, now: Instant)
    ensures ExtractClaims(u, Garbled(text), now) == Failure(Malformed)
  {
  }

  /** A token issued with a negative time-to-live is already expired when it is
      read at its issue instant, so it never yields claims. */
  lemma NegativeTtlExpired(secret: string, ttl: int, reader: JwtUtil, userId: Option<string>, email: Option<string>, username: Option<string>, now: Instant)
    requires ttl < 0 && reader.secretKey == KeyFor(secret)
    ensures ExtractClaims(reader, GenerateToken(New(secret, ttl), userId, email, username, now), now) == Failure(Expired)
  {
  }

  /** A fresh token with a positive time-to-live is not expired. */
  lemma FreshTokenNotExpired(u: JwtUtil, userId: Option<string>, email: Option<string>, username: Option<string>, now: Instant)
    requires u.expirationTime > 0
    ensures IsTokenExpired(u, GenerateToken(u, userId, email, username, now), now, now) == Success(false)
  {
  }

  /** The two readings of `isTokenExpired` matter: a token whose expiration
      falls between the parser's reading and `new Date()` is reported expired. */
  lemma ExpiredBetweenReadings(u: JwtUtil, userId: Option<string>, email: Option<string>, username: Option<string>, now: Instant, parsedAt: Instant, checkedAt: Instant)
    requires parsedAt <= now + 1000 * u.expirationTime < checkedAt
    ensures IsTokenExpired(u, GenerateToken(u, userId, email, username, now), parsedAt, checkedAt) == Success(true)
  {
  }

  /** A token that expires while `validateToken` runs: between its two parses
      the second parse throws, and between the second parse and `new Date()`
      the answer is false. */
  lemma ExpiresDuringValidation(u: JwtUtil, userId: string, email: Option<string>, username: Option<string>, now: Instant, subjectRead: Instant, expiryRead: Instant, checkedAt: Instant)
    requires subjectRead <= now + 1000 * u.expirationTime
    ensures var t := GenerateToken(u, Some(userId), email, username, now);
      var expiration := now + 1000 * u.expirationTime;
      && (expiration < expiryRead ==> ValidateToken(u, t, userId, subjectRead, expiryRead, checkedAt) == Failure(Expired))
      && (expiryRead <= expiration < checkedAt ==> ValidateToken(u, t, userId, subjectRead, expiryRead, checkedAt) == Success(false))
  {
  }

  /** A token issued for one user id does not validate for another. */
  lemma OtherUserIdInvalid(u: JwtUtil, userId: string, other: string, email: Option<string>, username: Option<string>, now: Instant)
    requires userId != other && u.expirationTime > 0
    ensures ValidateToken(u, GenerateToken(u, Some(userId), email, username, now), userId, now, now, now) == Success(true)
    ensures ValidateToken(u, GenerateToken(u, Some(userId), email, username, now), other, now, now, now) == Success(false)
  {
  }
}
