/** `JwtService`: the second token codec of the account module. It signs with a
    key derived from its configured secret on every call, stores the username and
    email as custom claims of a user's token, and expresses the time-to-live
    `jwtExpiration` in seconds added to a millisecond clock. */
module JwtService {
  import opened Wrappers
  import opened Account
  import opened Jws
  import JwtUtil

  const DefaultSecret := "mySecretKeyForJWTTokenGenerationThatShouldBeLongEnough"
  const DefaultExpiration := 3600

  datatype JwtService = JwtService(secretKey: string, jwtExpiration: int)

  /** `getSignInKey`: the key is re-derived from the configured secret on every
      call, the same key `JwtUtil` derives from that secret, and no other
      secret derives it. */
  function SignInKey(s: JwtService): (k: Key)
    ensures k == JwtUtil.New(s.secretKey, s.jwtExpiration).secretKey
    ensures forall secret: string :: KeyFor(secret) == k <==> secret == s.secretKey
  {
    KeyFor(s.secretKey)
  }

  /** `generateToken(Map, String)`: the extra claims, then the subject and the
      two instants, which override entries of the same name. The clock is read
      twice, at `issuedAt` for `iat` and at `expiryBase` for `exp`. */
  function GenerateToken(s: JwtService, extraClaims: map<string, string>, subject: Option<string>, issuedAt: Instant, expiryBase: Instant): (t: Token)
    ensures t.Signed? && t.tag == Sign(SignInKey(s), t.claims)
    ensures t.claims.subject == subject
    ensures t.claims.issuedAt == issuedAt && t.claims.expiration == expiryBase + s.jwtExpiration * 1000
    ensures issuedAt <= expiryBase ==> t.claims.expiration >= t.claims.issuedAt + s.jwtExpiration * 1000
    ensures forall name :: name in extraClaims && name !in Registered ==> name in t.claims.custom && t.claims.custom[name] == extraClaims[name]
    ensures t.claims.custom.Keys == extraClaims.Keys - Registered
  {
    Issue(SignInKey(s), subject, extraClaims, issuedAt, expiryBase + s.jwtExpiration * 1000)
  }

  /** `generateToken(User)`: subject is the user id, with username and email. */
  function GenerateTokenFor(s: JwtService, user: User, issuedAt: Instant, expiryBase: Instant): (t: Token)
    ensures t.Signed? && t.tag == Sign(SignInKey(s), t.claims)
    ensures t.claims.subject == Some(user.id)
    ensures t.claims.custom == map["username" := user.username, "email" := user.email]
    ensures issuedAt <= expiryBase ==> t.claims.expiration >= t.claims.issuedAt + s.jwtExpiration * 1000
  {
    var extra := map["username" := user.username, "email" := user.email];
    var t := GenerateToken(s, extra, Some(user.id), issuedAt, expiryBase);
    assert t.claims.custom.Keys == extra.Keys;
    t
  }

  /** `extractAllClaims`: the parser verifies with the configured key. */
  function ExtractAllClaims(s: JwtService, token: Token, now: Instant): (r: Result<Claims, JwtError>)
    ensures r.Success? ==> token == Signed(r.value, Sign(SignInKey(s), r.value))
    ensures r.Success? ==> now <= r.value.expiration
    ensures r.Failure? ==> r.error in {Malformed, SignatureMismatch, Expired}
  {
    Parse(SignInKey(s), token, now)
  }

  /** `extractClaim`: applies `resolver` to verified claims only. */
  function ExtractClaim<T>(s: JwtService, token: Token, now: Instant, resolver: Claims -> T): (r: Result<T, JwtError>)
    ensures r.Success? <==> ExtractAllClaims(s, token, now).Success?
    ensures r.Success? ==> token.Signed? && token.tag == Sign(SignInKey(s), token.claims) && r.value == resolver(token.claims)
  {
    var claims :- ExtractAllClaims(s, token, now);
    Success(resolver(claims))
  }

  function ExtractUserId(s: JwtService, token: Token, now: Instant): (r: Result<Option<string>, JwtError>)
    ensures r.Success? <==> ExtractAllClaims(s, token, now).Success?
    ensures r.Success? ==> token.tag == Sign(SignInKey(s), token.claims) && r.value == token.claims.subject
  {
    ExtractClaim(s, token, now, (c: Claims) => c.subject)
  }

  function ExtractUsername(s: JwtService, token: Token, now: Instant): (r: Result<Option<string>, JwtError>)
    ensures r.Success? <==> ExtractAllClaims(s, token, now).Success?
    ensures r.Success? ==> (
      && token.tag == Sign(SignInKey(s), token.claims)
      && r.value == (if "username" in token.claims.custom then Some(token.claims.custom["username"]) else None))
  {
    ExtractClaim(s, token, now, (c: Claims) => JwtUtil.Custom(c, "username"))
  }

  function ExtractEmail(s: JwtService, token: Token, now: Instant): (r: Result<Option<string>, JwtError>)
    ensures r.Success? <==> ExtractAllClaims(s, token, now).Success?
    ensures r.Success? ==> (
      && token.tag == Sign(SignInKey(s), token.claims)
      && r.value == (if "email" in token.claims.custom then Some(token.claims.custom["email"]) else None))
  {
    ExtractClaim(s, token, now, (c: Claims) => JwtUtil.Custom(c, "email"))
  }

  /** `extractExpiration`: a returned expiration is never before the parser's
      reading, since the parser refuses expired tokens itself. */
  function ExtractExpiration(s: JwtService, token: Token, now: Instant): (r: Result<Instant, JwtError>)
    ensures r.Success? <==> ExtractAllClaims(s, token, now).Success?
    ensures r.Success? ==> r.value == token.claims.expiration && now <= r.value
  {
    ExtractClaim(s, token, now, (c: Claims) => c.expiration)
  }

  /** `isTokenExpired`: the parser reads the clock at `parsedAt`, then the
      expiration is compared strictly with `new Date()` read at `checkedAt`. */
  function IsTokenExpired(s: JwtService, token: Token, parsedAt: Instant, checkedAt: Instant): (r: Result<bool, JwtError>)
    ensures r.Success? <==> ExtractAllClaims(s, token, parsedAt).Success?
    ensures r.Success? ==> (r.value <==> token.claims.expiration < checkedAt)
    ensures r.Success? && checkedAt <= parsedAt ==> !r.value
  {
    var expiration :- ExtractExpiration(s, token, parsedAt);
    Success(expiration < checkedAt)
  }

  /** `isTokenValid`: `extractUserId` parses at `subjectRead`, then
      `isTokenExpired` parses again at `expiryRead` and reads `new Date()` at
      `checkedAt`. A token without a subject makes the comparison dereference
      null; one that expires between the two parses makes the second throw. */
  function IsTokenValid(s: JwtService, token: Token, userId: string, subjectRead: Instant, expiryRead: Instant, checkedAt: Instant): (r: Result<bool, JwtError>)
    ensures r == Success(true) <==>
      && ExtractAllClaims(s, token, subjectRead).Success?
      && token.claims.subject == Some(userId)
      && ExtractAllClaims(s, token, expiryRead).Success?
      && !(token.claims.expiration < checkedAt)
    ensures r == Failure(NullSubject) <==> ExtractAllClaims(s, token, subjectRead).Success? && token.claims.subject.None?
    ensures r == Failure(Expired) <==>
      && token.Signed? && token.tag == Sign(SignInKey(s), token.claims)
      && (token.claims.expiration < subjectRead || (token.claims.subject == Some(userId) && token.claims.expiration < expiryRead))
    ensures ExtractAllClaims(s, token, subjectRead).Failure? ==> r == Failure(ExtractAllClaims(s, token, subjectRead).error)
    ensures ExtractAllClaims(s, token, subjectRead).Success? ==> r.Success? || r.error == NullSubject || r.error == Expired
  {
    var extracted :- ExtractUserId(s, token, subjectRead);
    if extracted.None? then Failure(NullSubject)
    else if extracted.value != userId then Success(false)
    else
      match IsTokenExpired(s, token, expiryRead, checkedAt)
      case Success(expired) => Success(!expired)
      case Failure(e) => Failure(e)
  }

  /** A token whose expiration falls between the parser's reading and
      `new Date()` is reported expired. */
  lemma ExpiredBetweenReadings(s: JwtService, user: User, issuedAt: Instant, expiryBase: Instant, parsedAt: Instant, checkedAt: Instant)
    requires parsedAt <= expiryBase + s.jwtExpiration * 1000 < checkedAt
    ensures IsTokenExpired(s, GenerateTokenFor(s, user, issuedAt, expiryBase), parsedAt, checkedAt) == Success(true)
  {
  }

  /** A user's token that expires while `isTokenValid` runs: between its two
      parses the second parse throws, and between the second parse and
      `new Date()` the answer is false. */
  lemma ExpiresDuringValidation(s: JwtService, user: User, issuedAt: Instant, expiryBase: Instant, subjectRead: Instant, expiryRead: Instant, checkedAt: Instant)
    requires subjectRead <= expiryBase + s.jwtExpiration * 1000
    ensures var t := GenerateTokenFor(s, user, issuedAt, expiryBase);
      var expiration := expiryBase + s.jwtExpiration * 1000;
      && (expiration < expiryRead ==> IsTokenValid(s, t, user.id, subjectRead, expiryRead, checkedAt) == Failure(Expired))
      && (expiryRead <= expiration < checkedAt ==> IsTokenValid(s, t, user.id, subjectRead, expiryRead, checkedAt) == Success(false))
  {
  }

  /** Round trip for a user's token under the same configuration before expiry. */
  lemma UserTokenRoundTrip(s: JwtService, user: User, issuedAt: Instant, expiryBase: Instant, later: Instant)
    requires later <= expiryBase + s.jwtExpiration * 1000
    ensures var t := GenerateTokenFor(s, user, issuedAt, expiryBase);
      && ExtractUserId(s, t, later) == Success(Some(user.id))
      && ExtractUsername(s, t, later) == Success(Some(user.username))
      && ExtractEmail(s, t, later) == Success(Some(user.email))
      && IsTokenValid(s, t, user.id, later, later, later) == Success(true)
  {
  }

  /** Only the configured secret verifies: a service configured with another
      secret refuses every token this one signs. */
  lemma OtherSecretRejected(s1: JwtService, s2: JwtService, extra: map<string, string>, subject: Option<string>, issuedAt: Instant, expiryBase: Instant, later: Instant)
    requires s1.secretKey != s2.secretKey
    ensures ExtractAllClaims(s2, GenerateToken(s1, extra, subject, issuedAt, expiryBase), later) == Failure(SignatureMismatch)
  {
  }

  /** Configured with the same secret and time-to-live, and reading the clock
      once, the two codecs issue the same claims under the same signature for
      the same user. */
  lemma CodecsAgreeOnSharedSecret(secret: string, ttl: int, user: User, now: Instant)
    ensures GenerateTokenFor(JwtService(secret, ttl), user, now, now)
      == JwtUtil.GenerateToken(JwtUtil.New(secret, ttl), Some(user.id), Some(user.email), Some(user.username), now)
  {
    var extra := map["username" := user.username, "email" := user.email];
    assert JwtUtil.ProfileClaims(Some(user.email), Some(user.username)) == extra;
  }

  /** With their default secrets the two codecs do not accept each other's
      tokens: a token this service issues is refused by the default `JwtUtil`. */
  lemma DefaultConfigurationsDisagree(user: User, issuedAt: Instant, expiryBase: Instant, later: Instant)
    ensures JwtUtil.ExtractClaims(
      JwtUtil.New(JwtUtil.DefaultSecret, JwtUtil.DefaultExpiration),
      GenerateTokenFor(JwtService(DefaultSecret, DefaultExpiration), user, issuedAt, expiryBase),
      later) == Failure(SignatureMismatch)
  {
    assert DefaultSecret[40] != JwtUtil.DefaultSecret[40];
  }
}
