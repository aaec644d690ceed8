/** `JwtAuthenticationFilter.doFilterInternal` as a function from the request's
    `Authorization` header, the authentication already in the security context
    and the clock to the ordered list of effects the filter performs. The bearer
    scheme prefix is that of section 2.1 of RFC 6750. Turning the header's token
    text into a JWS structure is the JWT library's decoder, passed as `decode`. */
module AuthFilter {
  import opened Wrappers
  import opened Text
  import opened Account
  import opened Jws
  import JwtUtil

  const BearerPrefix := "Bearer "

  /** What the filter does to the request, in order. */
  datatype Effect =
    | Authenticate(principal: string)
    | SetAttribute(name: string, value: Option<string>)
    | ProceedChain

  /** The filter's effects. A missing or non-bearer header goes straight down the
      chain; otherwise the token after the seven-character prefix is read, and any
      codec failure is swallowed before the chain is invoked. */
  function DoFilterInternal(jwt: JwtUtil.JwtUtil, decode: string -> Token, header: Option<string>, existing: Option<string>, now: Instant): (effects: seq<Effect>)
    ensures |effects| >= 1 && effects[|effects| - 1] == ProceedChain
    ensures forall i :: 0 <= i < |effects| - 1 ==> effects[i] != ProceedChain
    ensures header.None? || !StartsWith(header.value, BearerPrefix) ==> effects == [ProceedChain]
    ensures existing.Some? ==> effects == [ProceedChain]
  {
    if header.None? || !StartsWith(header.value, BearerPrefix) then
      [ProceedChain]
    else
      var token := decode(header.value[|BearerPrefix|..]);
      match JwtUtil.ExtractUserId(jwt, token, now)
      case Failure(_) => [ProceedChain]
      case Success(userId) =>
        if userId.Some? && existing.None? then
          match JwtUtil.ValidateToken(jwt, token, userId.value, now, now, now)
          case Failure(_) => [ProceedChain]
          case Success(valid) =>
            if valid then
              var authenticated := [Authenticate(userId.value), SetAttribute("userId", Some(userId.value))];
              match JwtUtil.ExtractEmail(jwt, token, now)
              case Failure(_) => authenticated + [ProceedChain]
              case Success(email) =>
                match JwtUtil.ExtractUsername(jwt, token, now)
                case Failure(_) => authenticated + [SetAttribute("email", email), ProceedChain]
                case Success(username) =>
                  authenticated + [SetAttribute("email", email), SetAttribute("username", username), ProceedChain]
            else
              [ProceedChain]
        else
          [ProceedChain]
  }

  /** The principal the security context holds after `effects`, starting from
      `existing`. */
  function Principal(existing: Option<string>, effects: seq<Effect>): (p: Option<string>)
    ensures existing.Some? && (forall i :: 0 <= i < |effects| ==> !effects[i].Authenticate?) ==> p == existing
    ensures p.Some? ==> p == existing || exists i :: 0 <= i < |effects| && effects[i] == Authenticate(p.value)
  {
    if effects == [] then existing
    else
      var p := Principal(existing, effects[..|effects| - 1]);
      match effects[|effects| - 1]
      case Authenticate(principal) => Some(principal)
      case _ => p
  }

  /** The request attributes after `effects`; setting null removes the attribute. */
  function Attributes(effects: seq<Effect>): (attrs: map<string, string>)
    ensures forall name :: name in attrs ==> exists i :: 0 <= i < |effects| && effects[i] == SetAttribute(name, Some(attrs[name]))
  {
    if effects == [] then map[]
    else
      var attrs := Attributes(effects[..|effects| - 1]);
      match effects[|effects| - 1]
      case SetAttribute(name, value) =>
        if value.Some? then attrs[name := value.value] else attrs - {name}
      case _ => attrs
  }

  /** Exactly when the filter authenticates: a bearer header whose token verifies
      under the configured key, is not expired and carries a subject, with no
      authentication already present. The principal is then the token's subject
      and the three attributes come from the same token. */
  lemma FilterAuthenticates(jwt: JwtUtil.JwtUtil, decode: string -> Token, header: Option<string>, existing: Option<string>, now: Instant)
    ensures var effects := DoFilterInternal(jwt, decode, header, existing, now);
      var authenticates := exists i :: 0 <= i < |effects| && effects[i].Authenticate?;
      authenticates <==>
        && existing.None?
        && header.Some? && StartsWith(header.value, BearerPrefix)
        && JwtUtil.ExtractClaims(jwt, decode(header.value[|BearerPrefix|..]), now).Success?
        && decode(header.value[|BearerPrefix|..]).claims.subject.Some?
    ensures var effects := DoFilterInternal(jwt, decode, header, existing, now);
      (exists i :: 0 <= i < |effects| && effects[i].Authenticate?) ==>
        var claims := decode(header.value[|BearerPrefix|..]).claims;
        && Principal(existing, effects) == claims.subject
        && Attributes(effects) == Profile(claims)
  {
    var effects := DoFilterInternal(jwt, decode, header, existing, now);
    if existing.None? && header.Some? && StartsWith(header.value, BearerPrefix) {
      var token := decode(header.value[|BearerPrefix|..]);
      if JwtUtil.ExtractClaims(jwt, token, now).Success? && token.claims.subject.Some? {
        var claims := token.claims;
        var email := JwtUtil.Custom(claims, "email");
        var username := JwtUtil.Custom(claims, "username");
        assert effects == [Authenticate(claims.subject.value), SetAttribute("userId", claims.subject),
          SetAttribute("email", email), SetAttribute("username", username), ProceedChain];
        assert effects[0].Authenticate?;
        PrincipalOfSuccess(existing, effects);
        AttributesOfSuccess(effects);
      } else {
        assert effects == [ProceedChain];
      }
    }
  }

  /** The attributes an authenticated request carries. */
  function Profile(claims: Claims): map<string, string>
    requires claims.subject.Some?
  {
    var m := map["userId" := claims.subject.value];
    var m := if "email" in claims.custom then m["email" := claims.custom["email"]] else m;
    if "username" in claims.custom then m["username" := claims.custom["username"]] else m
  }

  /** Effects that authenticate nobody leave the principal as it was. */
  lemma {:induction false} PrincipalUnchangedBy(existing: Option<string>, prefix: seq<Effect>, rest: seq<Effect>)
    requires forall i :: 0 <= i < |rest| ==> !rest[i].Authenticate?
    ensures Principal(existing, prefix + rest) == Principal(existing, prefix)
    decreases |rest|
  {
    if rest != [] {
      var last := rest[|rest| - 1];
      var front := rest[..|rest| - 1];
      assert (prefix + rest)[..|prefix + rest| - 1] == prefix + front;
      assert (prefix + rest)[|prefix + rest| - 1] == last;
      PrincipalUnchangedBy(existing, prefix, front);
    } else {
      assert prefix + rest == prefix;
    }
  }

  lemma PrincipalOfSuccess(existing: Option<string>, effects: seq<Effect>)
    requires |effects| == 5 && effects[0].Authenticate?
    requires forall i :: 1 <= i < 5 ==> !effects[i].Authenticate?
    ensures Principal(existing, effects) == Some(effects[0].principal)
  {
    assert effects == effects[..1] + effects[1..];
    assert effects[..1][..0] == [];
    PrincipalUnchangedBy(existing, effects[..1], effects[1..]);
  }

  lemma AttributesOfSuccess(effects: seq<Effect>)
    requires |effects| == 5 && effects[0].Authenticate? && effects[4] == ProceedChain
    requires effects[1] == SetAttribute("userId", Some(effects[0].principal))
    requires effects[2].SetAttribute? && effects[2].name == "email"
    requires effects[3].SetAttribute? && effects[3].name == "username"
    ensures var m := map["userId" := effects[0].principal];
      var m := if effects[2].value.Some? then m["email" := effects[2].value.value] else m;
      Attributes(effects) == if effects[3].value.Some? then m["username" := effects[3].value.value] else m
  {
    var m1 := map["userId" := effects[0].principal];
    assert effects[..1][..0] == [];
    assert Attributes(effects[..1]) == map[];
    assert effects[..2][..1] == effects[..1];
    assert Attributes(effects[..2]) == m1;
    assert effects[..3][..2] == effects[..2];
    var m2 := if effects[2].value.Some? then m1["email" := effects[2].value.value] else m1 - {"email"};
    assert Attributes(effects[..3]) == m2;
    assert m1 - {"email"} == m1;
    assert effects[..4][..3] == effects[..3];
    var m3 := if effects[3].value.Some? then m2["username" := effects[3].value.value] else m2 - {"username"};
    assert Attributes(effects[..4]) == m3;
    assert m2 - {"username"} == m2;
    assert effects[..4] == effects[..|effects| - 1];
  }

  /** An authentication already in the context is never replaced. */
  lemma ExistingAuthenticationKept(jwt: JwtUtil.JwtUtil, decode: string -> Token, header: Option<string>, principal: string, now: Instant)
    ensures Principal(Some(principal), DoFilterInternal(jwt, decode, header, Some(principal), now)) == Some(principal)
  {
    assert [ProceedChain][..0] == [];
  }

  /** Any codec failure leaves the request unauthenticated and the chain runs. */
  lemma CodecFailureSwallowed(jwt: JwtUtil.JwtUtil, decode: string -> Token, text: string, existing: Option<string>, now: Instant)
    requires JwtUtil.ExtractClaims(jwt, decode(text), now).Failure?
    ensures DoFilterInternal(jwt, decode, Some(BearerPrefix + text), existing, now) == [ProceedChain]
  {
    assert (BearerPrefix + text)[|BearerPrefix|..] == text;
    assert (BearerPrefix + text)[..|BearerPrefix|] == BearerPrefix;
  }

  /** End to end: a token issued by the same configuration, presented as a bearer
      header before it expires, authenticates its subject. */
  lemma IssuedTokenAuthenticates(jwt: JwtUtil.JwtUtil, decode: string -> Token, text: string, userId: string, email: string, username: string, issued: Instant, now: Instant)
    requires decode(text) == JwtUtil.GenerateToken(jwt, Some(userId), Some(email), Some(username), issued)
    requires issued <= now <= issued + 1000 * jwt.expirationTime
    ensures var effects := DoFilterInternal(jwt, decode, Some(BearerPrefix + text), None, now);
      && Principal(None, effects) == Some(userId)
      && Attributes(effects) == map["userId" := userId, "email" := email, "username" := username]
  {
    assert (BearerPrefix + text)[|BearerPrefix|..] == text;
    assert (BearerPrefix + text)[..|BearerPrefix|] == BearerPrefix;
    FilterAuthenticates(jwt, decode, Some(BearerPrefix + text), None, now);
    var effects := DoFilterInternal(jwt, decode, Some(BearerPrefix + text), None, now);
    assert effects[0].Authenticate?;
  }
}
