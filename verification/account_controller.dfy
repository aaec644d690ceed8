/** `AccountController`: how each endpoint turns what the service returned or
    threw into a status and a body. The service's `login` and `getUserById` are
    not part of this model, so their results are parameters. */
module AccountController {
  import opened Wrappers
  import opened Account
  import opened Jws
  import Text
  import AccountService
  import JwtUtil
  import AuthFilter
  import SecurityConfig

  datatype Body =
    | Registered(registration: RegisterResponse)
    | LoggedIn(login: LoginResponse)
    | Profile(info: UserInfo)
    | Error(error: ErrorResponse)

  datatype Response = Response(status: int, body: Body)

  /** A handler either answers or lets the exception escape to the framework. */
  datatype Handled = Respond(response: Response) | Propagate(fault: Fault)

  const InvalidCredentials := ErrorResponse("invalid_credentials", "email or password is incorrect", None)
  const UserNotFound := ErrorResponse("user_not_found", "User not found", None)

  /** `register`: 201 with the service response, 400 with the validation error
      and its details, 409 with the conflict and no details; anything else the
      service throws escapes. */
  function Register(outcome: Result<RegisterResponse, Fault>): (h: Handled)
    ensures outcome.Success? ==> h == Respond(Response(201, Registered(outcome.value)))
    ensures outcome.Failure? && outcome.error.Invalid? ==>
      var e := outcome.error.validation;
      h == Respond(Response(400, Error(ErrorResponse(e.error, e.message, Some(e.details)))))
    ensures outcome.Failure? && outcome.error.Conflict? ==>
      var e := outcome.error.conflict;
      h == Respond(Response(409, Error(ErrorResponse(e.error, e.message, None))))
    ensures h.Propagate? <==> outcome.Failure? && !outcome.error.Invalid? && !outcome.error.Conflict?
    ensures h.Propagate? ==> h.fault == outcome.error
  {
    match outcome
    case Success(response) => Respond(Response(201, Registered(response)))
    case Failure(Invalid(e)) => Respond(Response(400, Error(ErrorResponse(e.error, e.message, Some(e.details)))))
    case Failure(Conflict(e)) => Respond(Response(409, Error(ErrorResponse(e.error, e.message, None))))
    case Failure(f) => Propagate(f)
  }

  /** `login`: 200 with the service response, 400 for a validation error, and
      the same 401 body for every other exception. */
  function Login(outcome: Result<LoginResponse, Fault>): (r: Response)
    ensures r.status == 200 <==> outcome.Success?
    ensures outcome.Success? ==> r.body == LoggedIn(outcome.value)
    ensures r.status == 400 <==> outcome.Failure? && outcome.error.Invalid?
    ensures outcome.Failure? && outcome.error.Invalid? ==>
      r.body == Error(ErrorResponse(outcome.error.validation.error, outcome.error.validation.message, Some(outcome.error.validation.details)))
    ensures outcome.Failure? && !outcome.error.Invalid? ==> r == Response(401, Error(InvalidCredentials))
  {
    match outcome
    case Success(response) => Response(200, LoggedIn(response))
    case Failure(Invalid(e)) => Response(400, Error(ErrorResponse(e.error, e.message, Some(e.details))))
    case Failure(_) => Response(401, Error(InvalidCredentials))
  }

  /** A failed login does not reveal why it failed: an unknown email and a wrong
      password, or any other non-validation exception, give the same response. */
  lemma LoginHidesCause(f1: Fault, f2: Fault)
    requires !f1.Invalid? && !f2.Invalid?
    ensures Login(Failure(f1)) == Login(Failure(f2))
  {
  }

  /** `getCurrentUser`: the principal is the user id to look up; a missing
      authentication or any lookup failure gives 404. */
  function GetCurrentUser(principal: Option<string>, getUserById: string -> Result<UserInfo, Fault>): (r: Response)
    ensures r.status == 200 <==> principal.Some? && getUserById(principal.value).Success?
    ensures r.status == 200 ==> r.body == Profile(getUserById(principal.value).value)
    ensures r.status != 200 ==> r == Response(404, Error(UserNotFound))
  {
    if principal.None? then Response(404, Error(UserNotFound))
    else
      match getUserById(principal.value)
      case Success(info) => Response(200, Profile(info))
      case Failure(_) => Response(404, Error(UserNotFound))
  }

  /** `getUser`: the path id is looked up with the same 404 mapping. */
  function GetUser(id: string, getUserById: string -> Result<UserInfo, Fault>): (r: Response)
    ensures r.status == 200 <==> getUserById(id).Success?
    ensures r.status == 200 ==> r.body == Profile(getUserById(id).value)
    ensures r.status != 200 ==> r == Response(404, Error(UserNotFound))
  {
    match getUserById(id)
    case Success(info) => Response(200, Profile(info))
    case Failure(_) => Response(404, Error(UserNotFound))
  }

  /** The two lookup endpoints agree: `/me` answers exactly as `/users/{id}`
      does for the authenticated principal's id. */
  lemma MeIsLookupOfPrincipal(principal: string, getUserById: string -> Result<UserInfo, Fault>)
    ensures GetCurrentUser(Some(principal), getUserById) == GetUser(principal, getUserById)
  {
  }

  /** Through the controller, a request without a password is not answered: the
      service's null dereference escapes `register`. */
  lemma NullPasswordEscapesRegister(store: Store, email: Option<string>, username: Option<string>, uuid: string, now: Instant)
    ensures Register(AccountService.Register(store, RegisterRequest(email, username, None), uuid, now).outcome)
      == Propagate(NullPointer)
  {
  }

  /** Through the controller, a duplicate of a stored email is answered 409 and
      a request with invalid fields 400, whatever the store holds. */
  lemma RegisterStatuses(store: Store, request: RegisterRequest, uuid: string, now: Instant)
    requires request.password.Some?
    ensures var h := Register(AccountService.Register(store, request, uuid, now).outcome);
      && (AccountService.ValidateRegisterRequest(request).Failure? ==> h.Respond? && h.response.status == 400)
      && (AccountService.ValidateRegisterRequest(request).Success? && request.email.value in store ==>
            h == Respond(Response(409, Error(ErrorResponse("conflict", "email already registered", None)))))
      && (AccountService.ValidateRegisterRequest(request).Success? && request.email.value !in store ==>
            h.Respond? && h.response.status == 201)
  {
  }

  /** A protected lookup without a bearer header, or whose token the codec
      refuses (garbled, wrongly signed, expired), is stopped with the same 401
      body before any handler runs. */
  lemma ProtectedLookupUniform401(
    jwt: JwtUtil.JwtUtil, decode: string -> Token, path: string, header: Option<string>, now: Instant)
    requires path == "/account/me" || SecurityConfig.IsUserPath(path)
    requires header.None? || !Text.StartsWith(header.value, AuthFilter.BearerPrefix)
      || JwtUtil.ExtractClaims(jwt, decode(header.value[|AuthFilter.BearerPrefix|..]), now).Failure?
    ensures var effects := AuthFilter.DoFilterInternal(jwt, decode, header, None, now);
      SecurityConfig.Authorize(path, AuthFilter.Principal(None, effects)) == SecurityConfig.AuthenticationEntryPoint()
  {
    AuthFilter.FilterAuthenticates(jwt, decode, header, None, now);
    var effects := AuthFilter.DoFilterInternal(jwt, decode, header, None, now);
    assert forall i :: 0 <= i < |effects| ==> !effects[i].Authenticate?;
    AuthFilter.PrincipalUnchangedBy(None, [], effects);
    assert [] + effects == effects;
  }
}
