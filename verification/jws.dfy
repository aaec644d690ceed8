/** The signed-token layer the account module takes from its JWT library: a JSON
    Web Token (RFC 7519) in JWS compact serialization (section 7.1 of RFC 7515),
    signed with an HMAC algorithm (section 3.2 of RFC 7518).

    The MAC is idealised: the tag of a claim set under a key is the symbolic term
    `Mac(key, claims)`, so two tags agree only when both the key and every claim
    agree. Base64url, JSON and the hash itself are not modelled; a token string
    that does not decode into header, claims and tag is `Garbled`. */
module Jws {
  import opened Wrappers
  import opened Account

  /** `Keys.hmacShaKeyFor(secret.getBytes())`: the key is the secret's bytes. */
  datatype Key = HmacKey(material: string)

  function KeyFor(secret: string): Key {
    HmacKey(secret)
  }

  /** Distinct secrets give distinct keys. */
  lemma KeyForInjective(a: string, b: string)
    ensures KeyFor(a) == KeyFor(b) <==> a == b
  {
  }

  /** Registered claims set by the builder itself, which override any custom
      entry of the same name: `sub` (section 4.1.2 of RFC 7519), `iat`
      (section 4.1.6) and `exp` (section 4.1.4). */
  const Registered: set<string> := {"sub", "iat", "exp"}

  /** A claim set. A null subject is an absent `sub`; times are instants. */
  datatype Claims = Claims(
    subject: Option<string>,
    issuedAt: Instant,
    expiration: Instant,
    custom: map<string, string>)

  datatype Tag = Mac(key: Key, claims: Claims) | Forged(bytes: string)

  datatype Token = Signed(claims: Claims, tag: Tag) | Garbled(text: string)

  /** Why the parser refuses a token, plus the null dereference a caller hits when
      it compares an absent subject. */
  datatype JwtError = Malformed | SignatureMismatch | Expired | NullSubject

  function Sign(key: Key, claims: Claims): Tag {
    Mac(key, claims)
  }

  /** Tags made under different keys, or over different claims, differ. */
  lemma SignInjective(k1: Key, c1: Claims, k2: Key, c2: Claims)
    ensures Sign(k1, c1) == Sign(k2, c2) <==> k1 == k2 && c1 == c2
  {
  }

  /** `Jwts.builder()...signWith(key).compact()`. */
  function Issue(key: Key, subject: Option<string>, custom: map<string, string>, issuedAt: Instant, expiration: Instant): (t: Token)
    ensures t.Signed? && t.tag == Sign(key, t.claims)
    ensures t.claims.subject == subject
    ensures t.claims.issuedAt == issuedAt && t.claims.expiration == expiration
    ensures t.claims.custom.Keys !! Registered
    ensures forall name :: name in custom && name !in Registered ==> name in t.claims.custom && t.claims.custom[name] == custom[name]
    ensures forall name :: name in t.claims.custom ==> name in custom
  {
    var claims := Claims(subject, issuedAt, expiration, custom - Registered);
    Signed(claims, Sign(key, claims))
  }

  /** `Jwts.parser().verifyWith(key).build().parseSignedClaims(token).getPayload()`,
      with the parser's clock reading `now`: the signature is checked before any
      claim is trusted, then an expiration strictly before `now` is refused. */
  function Parse(key: Key, token: Token, now: Instant): (r: Result<Claims, JwtError>)
    ensures r.Success? ==> token == Signed(r.value, Sign(key, r.value))
    ensures r.Success? ==> now <= r.value.expiration
    ensures r == Failure(Malformed) <==> token.Garbled?
    ensures r == Failure(SignatureMismatch) <==> token.Signed? && token.tag != Sign(key, token.claims)
    ensures r.Failure? ==> r.error != NullSubject
  {
    match token
    case Garbled(_) => Failure(Malformed)
    case Signed(claims, tag) =>
      if tag != Sign(key, claims) then Failure(SignatureMismatch)
      else if claims.expiration < now then Failure(Expired)
      else Success(claims)
  }

  /** Round trip: a token issued under `key` parses back to exactly the claims it
      was issued with, for as long as its expiration is not before the clock. */
  lemma ParseIssued(key: Key, c: Claims, now: Instant)
    requires c.custom.Keys !! Registered
    ensures var t := Issue(key, c.subject, c.custom, c.issuedAt, c.expiration);
      Parse(key, t, now) == (if c.expiration < now then Failure(Expired) else Success(c))
  {
    assert c.custom - Registered == c.custom;
  }

  /** A token issued under one key is refused under any other, whatever its
      claims and whenever it is presented. */
  lemma WrongKeyRejected(k1: Key, k2: Key, t: Token, now: Instant)
    requires k1 != k2 && t.Signed? && t.tag == Sign(k1, t.claims)
    ensures Parse(k2, t, now) == Failure(SignatureMismatch)
  {
  }

  /** Altering any claim of a signed token, expiry included, invalidates it,
      independently of whether the token had expired. */
  lemma TamperedRejected(key: Key, original: Claims, altered: Claims, now: Instant)
    requires altered != original
    ensures Parse(key, Signed(altered, Sign(key, original)), now) == Failure(SignatureMismatch)
  {
  }
}
