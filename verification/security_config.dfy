/** `SecurityConfig.filterChain` restated as ordinary functions: the ordered
    authorization rules as a total map from request path to the access it
    requires, and the two 401 handlers with their fixed JSON bodies. Path
    patterns match segment by segment; a `{name}` segment matches any one
    non-empty segment. */
module SecurityConfig {
  import opened Wrappers
  import opened Text

  /** `parts` rejoined with `/` between consecutive elements. */
  function Join(parts: seq<string>): string
    requires |parts| >= 1
  {
    if |parts| == 1 then parts[0] else parts[0] + "/" + Join(parts[1..])
  }

  /** The `/`-separated segments of a path; the leading `/` yields an empty
      first segment. */
  function Segments(path: string): (parts: seq<string>)
    ensures |parts| >= 1
    ensures forall i :: 0 <= i < |parts| ==> '/' !in parts[i]
    ensures Join(parts) == path
    decreases |path|
  {
    match IndexOf(path, '/', 0)
    case None => [path]
    case Some(i) =>
      var rest := Segments(path[i + 1..]);
      assert ([path[..i]] + rest)[1..] == rest;
      assert path == path[..i] + "/" + path[i + 1..];
      [path[..i]] + rest
  }

  /** Splitting is the inverse of joining slash-free segments. */
  lemma {:induction false} SegmentsOfJoin(parts: seq<string>)
    requires |parts| >= 1
    requires forall i :: 0 <= i < |parts| ==> '/' !in parts[i]
    ensures Segments(Join(parts)) == parts
    decreases |parts|
  {
    if |parts| == 1 {
      assert IndexOf(parts[0], '/', 0).None?;
    } else {
      var head := parts[0];
      var tail := Join(parts[1..]);
      var path := head + "/" + tail;
      assert path[|head|] == '/';
      assert forall k :: 0 <= k < |head| ==> path[k] == head[k];
      assert IndexOf(path, '/', 0) == Some(|head|);
      assert path[..|head|] == head;
      assert path[|head| + 1..] == tail;
      SegmentsOfJoin(parts[1..]);
      assert parts == [head] + parts[1..];
    }
  }

  datatype Segment = Literal(text: string) | Variable(name: string)

  /** A path pattern, segment by segment. */
  type Pattern = seq<Segment>

  /** The patterns of the configuration, segment by segment:
      `/account/register`, `/account/login`, `/account/me`, `/account/users/{id}`. */
  const RegisterRoute: Pattern := [Literal(""), Literal("account"), Literal("register")]
  const LoginRoute: Pattern := [Literal(""), Literal("account"), Literal("login")]
  const MeRoute: Pattern := [Literal(""), Literal("account"), Literal("me")]
  const UserRoute: Pattern := [Literal(""), Literal("account"), Literal("users"), Variable("id")]

  predicate SegmentMatches(pattern: Segment, text: string) {
    match pattern
    case Literal(t) => t == text
    case Variable(_) => text != ""
  }

  /** Whether a request path matches a pattern: same number of segments, literal
      segments equal, variable segments non-empty. */
  predicate Matches(pattern: Pattern, path: string) {
    var ss := Segments(path);
    |pattern| == |ss| && forall i :: 0 <= i < |pattern| ==> SegmentMatches(pattern[i], ss[i])
  }

  datatype Access = PermitAll | Authenticated

  datatype Rule = Rule(patterns: seq<Pattern>, access: Access)

  /** The rules in declaration order; `anyRequest().permitAll()` is the fallback. */
  const Rules: seq<Rule> := [
    Rule([RegisterRoute, LoginRoute], PermitAll),
    Rule([MeRoute, UserRoute], Authenticated)
  ]

  predicate RuleMatches(rule: Rule, path: string) {
    exists i :: 0 <= i < |rule.patterns| && Matches(rule.patterns[i], path)
  }

  /** The access the first matching rule requires. */
  function FirstMatch(rules: seq<Rule>, path: string): (a: Access)
    ensures a == Authenticated ==> exists i :: 0 <= i < |rules| && RuleMatches(rules[i], path) && rules[i].access == Authenticated
  {
    if rules == [] then PermitAll
    else if RuleMatches(rules[0], path) then rules[0].access
    else FirstMatch(rules[1..], path)
  }

  function Required(path: string): Access {
    FirstMatch(Rules, path)
  }

  /** A path naming one user: `/account/users/` followed by one non-empty segment. */
  predicate IsUserPath(path: string) {
    StartsWith(path, "/account/users/") && |path| > 15 && '/' !in path[15..]
  }

  /** A pattern of literal segments matches exactly the path it spells. */
  lemma MatchesLiteral(pattern: Pattern, parts: seq<string>, path: string)
    requires |pattern| == |parts| >= 1
    requires forall i :: 0 <= i < |parts| ==> pattern[i] == Literal(parts[i])
    ensures Matches(pattern, path) <==> path == Join(parts) && forall i :: 0 <= i < |parts| ==> '/' !in parts[i]
  {
    var ss := Segments(path);
    if Matches(pattern, path) {
      assert forall i :: 0 <= i < |parts| ==> ss[i] == parts[i];
      assert ss == parts;
    }
    if path == Join(parts) && forall i :: 0 <= i < |parts| ==> '/' !in parts[i] {
      SegmentsOfJoin(parts);
    }
  }

  lemma JoinUserPath(id: string)
    ensures Join(["", "account", "users", id]) == "/account/users/" + id
  {
    var parts := ["", "account", "users", id];
    assert parts[1..] == ["account", "users", id];
    assert parts[1..][1..] == ["users", id];
    assert parts[1..][1..][1..] == [id];
    assert Join(["users", id]) == "users/" + id;
    assert Join(["account", "users", id]) == "account/users/" + id;
  }

  lemma MatchesUserRoute(path: string)
    ensures Matches(UserRoute, path) <==> IsUserPath(path)
  {
    var ss := Segments(path);
    if IsUserPath(path) {
      var id := path[15..];
      var parts := ["", "account", "users", id];
      JoinUserPath(id);
      assert path == path[..15] + id;
      SegmentsOfJoin(parts);
    }
    if Matches(UserRoute, path) {
      var id := ss[3];
      assert ss == ["", "account", "users", id];
      JoinUserPath(id);
      assert path == "/account/users/" + id;
      assert path[15..] == id;
    }
  }

  /** The first-match walk over the two rules. */
  lemma RequiredUnfolds(path: string)
    ensures Required(path) == Authenticated <==>
      && !Matches(RegisterRoute, path) && !Matches(LoginRoute, path)
      && (Matches(MeRoute, path) || Matches(UserRoute, path))
  {
    var r0 := Rules[0];
    var r1 := Rules[1];
    assert Rules[1..] == [r1];
    assert [r1][1..] == [];
    assert FirstMatch([r1], path) == (if RuleMatches(r1, path) then Authenticated else PermitAll);
    assert Required(path) == (if RuleMatches(r0, path) then PermitAll else FirstMatch([r1], path));
    assert RuleMatches(r0, path) <==> Matches(RegisterRoute, path) || Matches(LoginRoute, path) by {
      if RuleMatches(r0, path) {
        var i :| 0 <= i < |r0.patterns| && Matches(r0.patterns[i], path);
        assert i == 0 || i == 1;
      }
      if Matches(RegisterRoute, path) { assert Matches(r0.patterns[0], path); }
      if Matches(LoginRoute, path) { assert Matches(r0.patterns[1], path); }
    }
    assert RuleMatches(r1, path) <==> Matches(MeRoute, path) || Matches(UserRoute, path) by {
      if RuleMatches(r1, path) {
        var i :| 0 <= i < |r1.patterns| && Matches(r1.patterns[i], path);
        assert i == 0 || i == 1;
      }
      if Matches(MeRoute, path) { assert Matches(r1.patterns[0], path); }
      if Matches(UserRoute, path) { assert Matches(r1.patterns[1], path); }
    }
  }

  lemma MatchesRegisterRoute(path: string)
    ensures Matches(RegisterRoute, path) <==> path == "/account/register"
  {
    var parts := ["", "account", "register"];
    assert parts[1..] == ["account", "register"] && parts[1..][1..] == ["register"];
    assert Join(parts) == "/account/register";
    MatchesLiteral(RegisterRoute, parts, path);
  }

  lemma MatchesLoginRoute(path: string)
    ensures Matches(LoginRoute, path) <==> path == "/account/login"
  {
    var parts := ["", "account", "login"];
    assert parts[1..] == ["account", "login"] && parts[1..][1..] == ["login"];
    assert Join(parts) == "/account/login";
    MatchesLiteral(LoginRoute, parts, path);
  }

  lemma MatchesMeRoute(path: string)
    ensures Matches(MeRoute, path) <==> path == "/account/me"
  {
    var parts := ["", "account", "me"];
    assert parts[1..] == ["account", "me"] && parts[1..][1..] == ["me"];
    assert Join(parts) == "/account/me";
    MatchesLiteral(MeRoute, parts, path);
  }

  /** The policy: exactly `/account/me` and `/account/users/{id}` need an
      authenticated caller; register, login and every other path are public. */
  lemma RequiredAccess(path: string)
    ensures Required(path) == Authenticated <==> path == "/account/me" || IsUserPath(path)
  {
    MatchesRegisterRoute(path);
    MatchesLoginRoute(path);
    MatchesMeRoute(path);
    MatchesUserRoute(path);
    RequiredUnfolds(path);
    if IsUserPath(path) {
      assert path[9] == path[..15][9] == 'u';
      assert "/account/register"[9] == 'r' && "/account/login"[9] == 'l';
    }
  }

  /** Register and login are public. */
  lemma RegisterAndLoginPublic()
    ensures Required("/account/register") == PermitAll
    ensures Required("/account/login") == PermitAll
  {
    RequiredAccess("/account/register");
    RequiredAccess("/account/login");
    assert "/account/register"[9] != "/account/users/"[9];
    assert |"/account/login"| < 15;
  }

  const Unauthorized := 401
  const EntryPointBody := ErrorJson("unauthorized", "Authentication required")
  const AccessDeniedBody := ErrorJson("unauthorized", "Access denied")

  datatype Decision = Proceed | Respond(status: int, body: string)

  /** The JSON object with an `error` and a `message` member that both
      handlers write, as the controller's error body without `details`. */
  function ErrorJson(error: string, message: string): string {
    "{\"error\":\"" + error + "\",\"message\":\"" + message + "\"}"
  }

  /** The authentication entry point: 401 with the `unauthorized` error code. */
  function AuthenticationEntryPoint(): (d: Decision)
    ensures d.Respond? && d.status == 401
    ensures d.body == ErrorJson("unauthorized", "Authentication required")
  {
    Respond(Unauthorized, EntryPointBody)
  }

  /** The access-denied handler, for an authenticated caller a rule refuses:
      the same status and error code, a different message. */
  function AccessDeniedHandler(): (d: Decision)
    ensures d.Respond? && d.status == AuthenticationEntryPoint().status
    ensures d.body == ErrorJson("unauthorized", "Access denied")
    ensures d != AuthenticationEntryPoint()
  {
    Respond(Unauthorized, AccessDeniedBody)
  }

  /** The policy applied to a request carrying principal `principal`: an
      anonymous request to a protected path goes to the entry point; every
      other request proceeds. No rule refuses an authenticated caller, so the
      access-denied handler is never reached. */
  function Authorize(path: string, principal: Option<string>): (d: Decision)
    ensures d != AccessDeniedHandler()
    ensures d.Respond? <==> principal.None? && (path == "/account/me" || IsUserPath(path))
    ensures d.Respond? ==> d.status == 401 && d.body == EntryPointBody
  {
    RequiredAccess(path);
    if Required(path) == Authenticated && principal.None? then AuthenticationEntryPoint() else Proceed
  }
}
