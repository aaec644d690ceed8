/** `AccountService.register`: validate the request into a field-to-messages map,
    reject an email that is already stored, then build and save a `User`.
    The clock reading (`Instant.now()`) and the random UUID are parameters. */
module AccountService {
  import opened Wrappers
  import opened Text
  import opened Account

  const EmailMessage := "must be a valid email"
  const UsernameMessage := "must be a valid username"
  const PasswordMessage := "must be a valid password"
  const PasswordLengthMessage := "password length must more then 7"
  const MinPasswordLength := 7
  const UserIdPrefix := "usr_"
  const RegisterSuccess := "register success"

  /** The service's own email check: the address contains an `@` and a `.`,
      anywhere and in any order. */
  function IsValidEmail(email: string): (r: bool)
    ensures r <==> '@' in email && '.' in email
  {
    ContainsIsMembership(email, '@');
    ContainsIsMembership(email, '.');
    Contains(email, '@') && Contains(email, '.')
  }

  /** Reference reading of the three field rules, independent of the order in
      which the validator evaluates them. */
  predicate EmailRejected(email: Option<string>) {
    email.None? || !('@' in email.value && '.' in email.value)
  }

  predicate UsernameRejected(username: Option<string>) {
    username.None? || AllTrimmable(username.value)
  }

  predicate PasswordRejected(password: string) {
    |password| < MinPasswordLength || AllTrimmable(password)
  }

  /** The message the validator finally leaves under `password`: the length
      message, when it fires, replaces the blank message. */
  function PasswordVerdict(password: string): string
    requires PasswordRejected(password)
  {
    if |password| < MinPasswordLength then PasswordLengthMessage else PasswordMessage
  }

  /** `validateRegisterRequest`: every field is checked before anything is thrown.
      A null password is dereferenced by the length check and fails with a
      null-pointer fault instead of a validation error. */
  function ValidateRegisterRequest(request: RegisterRequest): (r: Result<(), Fault>)
    ensures r == Failure(NullPointer) <==> request.password.None?
    ensures r.Success? <==>
      && request.password.Some?
      && !EmailRejected(request.email)
      && !UsernameRejected(request.username)
      && !PasswordRejected(request.password.value)
    ensures r.Failure? ==> r.error.Invalid? || r.error.NullPointer?
    ensures r.Failure? && r.error.Invalid? ==>
      var e := r.error.validation;
      && e.error == "validation_error"
      && e.message == "invalid fields"
      && e.details.Keys <= {"email", "username", "password"}
      && ("email" in e.details <==> EmailRejected(request.email))
      && ("email" in e.details ==> e.details["email"] == [EmailMessage])
      && ("username" in e.details <==> UsernameRejected(request.username))
      && ("username" in e.details ==> e.details["username"] == [UsernameMessage])
      && ("password" in e.details <==> PasswordRejected(request.password.value))
      && ("password" in e.details ==> e.details["password"] == [PasswordVerdict(request.password.value)])
  {
    var errors: FieldErrors := map[];
    var errors :=
      if request.email.None? || IsBlank(request.email.value) then errors["email" := [EmailMessage]]
      else if !IsValidEmail(request.email.value) then errors["email" := [EmailMessage]]
      else errors;
    var errors :=
      if request.username.None? || IsBlank(request.username.value) then errors["username" := [UsernameMessage]]
      else errors;
    var errors :=
      if request.password.None? || IsBlank(request.password.value) then errors["password" := [PasswordMessage]]
      else errors;
    if request.password.None? then
      Failure(NullPointer)
    else
      var errors :=
        if |request.password.value| < MinPasswordLength then errors["password" := [PasswordLengthMessage]]
        else errors;
      if |errors| != 0 then
        Failure(Invalid(ValidationException("validation_error", "invalid fields", errors)))
      else
        Success(())
  }

  /** `checkEmailConflict`: a stored record with exactly this email is a conflict. */
  function CheckEmailConflict(store: Store, email: string): (r: Result<(), Fault>)
    ensures r.Success? <==> email !in store
    ensures r.Failure? ==> r.error == Conflict(ConflictException("conflict", "email already registered"))
  {
    if ExistsByEmail(store, email) then
      Failure(Conflict(ConflictException("conflict", "email already registered")))
    else
      Success(())
  }

  /** `generateUserId`: the fixed prefix followed by the random UUID text. */
  function GenerateUserId(uuid: string): (id: string)
    ensures |id| == |UserIdPrefix| + |uuid|
    ensures StartsWith(id, UserIdPrefix) && id[|UserIdPrefix|..] == uuid
  {
    UserIdPrefix + uuid
  }

  /** `createUser`: username and email trimmed, password kept verbatim, both
      timestamps the same clock reading. */
  function CreateUser(request: RegisterRequest, uuid: string, now: Instant): (u: User)
    requires request.email.Some? && request.username.Some? && request.password.Some?
    ensures StartsWith(u.id, UserIdPrefix) && u.id[|UserIdPrefix|..] == uuid
    ensures u.username == Trim(request.username.value)
    ensures u.email == Trim(request.email.value)
    ensures u.password == request.password.value
    ensures u.createdAt == u.updatedAt == now
  {
    User(
      GenerateUserId(uuid),
      Trim(request.username.value),
      Trim(request.email.value),
      request.password.value,
      now,
      now)
  }

  /** What one `register` call produces: the returned response or the thrown
      fault, and the store afterwards. */
  datatype Registration = Registration(outcome: Result<RegisterResponse, Fault>, store: Store)

  /** `register`: validate, then check the raw request email against the store,
      then save the new user. */
  function Register(store: Store, request: RegisterRequest, uuid: string, now: Instant): (r: Registration)
    ensures r.outcome.Failure? ==> r.store == store
    ensures r.outcome.Failure? && r.outcome.error.Invalid? <==>
      request.password.Some? && ValidateRegisterRequest(request).Failure?
    ensures r.outcome == Failure(NullPointer) <==> request.password.None?
    ensures r.outcome.Success? <==> ValidateRegisterRequest(request).Success? && request.email.value !in store
    ensures r.outcome.Failure? && r.outcome.error.Conflict? <==>
      ValidateRegisterRequest(request).Success? && request.email.value in store
    ensures r.outcome.Failure? && r.outcome.error.Conflict? ==>
      r.outcome.error.conflict == ConflictException("conflict", "email already registered")
    ensures r.outcome.Success? ==>
      var u := r.outcome.value.user;
      && ValidateRegisterRequest(request).Success?
      && request.email.value !in store
      && r.outcome.value.message == RegisterSuccess
      && u.id == UserIdPrefix + uuid
      && u.username == Trim(request.username.value)
      && u.email == Trim(request.email.value)
      && u.password == request.password.value
      && u.createdAt == u.updatedAt == now
      && r.store == store[u.email := u]
  {
    match ValidateRegisterRequest(request)
    case Failure(f) => Registration(Failure(f), store)
    case Success(_) =>
      match CheckEmailConflict(store, request.email.value)
      case Failure(f) => Registration(Failure(f), store)
      case Success(_) =>
        var user := CreateUser(request, uuid, now);
        var saved := Save(store, user);
        Registration(Success(RegisterResponse(RegisterSuccess, saved[user.email])), saved)
  }

  /** `register` keeps every record filed under its own email. */
  lemma RegisterKeepsStoreKeyed(store: Store, request: RegisterRequest, uuid: string, now: Instant)
    requires Keyed(store)
    ensures Keyed(Register(store, request, uuid, now).store)
  {
  }

  /** Invalid input never consults the store: whatever the two stores hold, a
      request that fails validation fails identically and changes nothing. */
  lemma ValidationIgnoresStore(s1: Store, s2: Store, request: RegisterRequest, uuid: string, now: Instant)
    requires ValidateRegisterRequest(request).Failure?
    ensures Register(s1, request, uuid, now).outcome == Register(s2, request, uuid, now).outcome
  {
  }

  /** A duplicate email with invalid fields is reported as a validation error,
      not as a conflict. */
  lemma ValidationPrecedesConflict(store: Store, request: RegisterRequest, uuid: string, now: Instant)
    requires request.password.Some? && request.email.Some? && request.email.value in store
    requires ValidateRegisterRequest(request).Failure?
    ensures Register(store, request, uuid, now).outcome.Failure?
    ensures Register(store, request, uuid, now).outcome.error.Invalid?
  {
  }

  /** Registering one clean email twice: the first call succeeds, the second
      is a conflict whatever username and password it carries, and leaves the
      store as the first call left it. */
  lemma SecondRegistrationConflicts(
    store: Store, first: RegisterRequest, second: RegisterRequest,
    uuid1: string, uuid2: string, t1: Instant, t2: Instant)
    requires first.email.Some? && Trim(first.email.value) == first.email.value
    requires second.email == first.email
    requires ValidateRegisterRequest(first).Success? && first.email.value !in store
    requires ValidateRegisterRequest(second).Success?
    ensures Register(store, first, uuid1, t1).outcome.Success?
    ensures var s1 := Register(store, first, uuid1, t1).store;
      Register(s1, second, uuid2, t2) == Registration(Failure(Conflict(ConflictException("conflict", "email already registered"))), s1)
  {
    var s1 := Register(store, first, uuid1, t1).store;
    assert first.email.value in s1;
  }

  /** The weak email rule accepts addresses with an empty local part and with a
      dot right after the `@`. */
  lemma WeakEmailAccepts()
    ensures IsValidEmail("@example.com")
    ensures IsValidEmail("test@.com")
    ensures IsValidEmail("test@example.com")
  {
    assert "@example.com"[0] == '@' && "@example.com"[8] == '.';
    assert "test@.com"[4] == '@' && "test@.com"[5] == '.';
    assert "test@example.com"[4] == '@' && "test@example.com"[12] == '.';
  }

  /** It rejects an address without `@` and one without `.`. */
  lemma WeakEmailRejects()
    ensures !IsValidEmail("invalid-email")
    ensures !IsValidEmail("test@")
  {
  }

  /** Password boundary: seven characters pass, six fail with the length
      message, and a short blank password reports the length message only. */
  lemma PasswordBoundary()
    ensures !PasswordRejected("1234567")
    ensures PasswordRejected("123456") && PasswordVerdict("123456") == PasswordLengthMessage
    ensures PasswordRejected("  ") && PasswordVerdict("  ") == PasswordLengthMessage
    ensures PasswordRejected("       ") && PasswordVerdict("       ") == PasswordMessage
  {
    assert !IsTrimmable("1234567"[0]);
  }
}
