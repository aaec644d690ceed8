/** Registration with the two defects of `AccountService.register` corrected:
    a null password is reported as a field error instead of being dereferenced,
    and the duplicate check looks up the trimmed email, the key the record is
    actually saved under. The as-written behaviour stays in `AccountService`. */
module RegistrationFixed {
  import opened Wrappers
  import opened Text
  import opened Account
  import opened AccountService

  /** A null password is rejected like a blank one. */
  predicate PasswordFieldRejected(password: Option<string>) {
    password.None? || PasswordRejected(password.value)
  }

  function PasswordFieldVerdict(password: Option<string>): string
    requires PasswordFieldRejected(password)
  {
    if password.None? then PasswordMessage else PasswordVerdict(password.value)
  }

  /** The validator with the length check guarded against a null password. */
  function ValidateGuarded(request: RegisterRequest): (r: Result<(), ValidationException>)
    ensures r.Success? <==>
      !EmailRejected(request.email) && !UsernameRejected(request.username) && !PasswordFieldRejected(request.password)
    ensures r.Failure? ==>
      var e := r.error;
      && e.error == "validation_error"
      && e.message == "invalid fields"
      && e.details.Keys <= {"email", "username", "password"}
      && ("email" in e.details <==> EmailRejected(request.email))
      && ("email" in e.details ==> e.details["email"] == [EmailMessage])
      && ("username" in e.details <==> UsernameRejected(request.username))
      && ("username" in e.details ==> e.details["username"] == [UsernameMessage])
      && ("password" in e.details <==> PasswordFieldRejected(request.password))
      && ("password" in e.details ==> e.details["password"] == [PasswordFieldVerdict(request.password)])
  {
    var errors: FieldErrors := map[];
    var errors :=
      if request.email.None? || IsBlank(request.email.value) || !IsValidEmail(request.email.value) then
        errors["email" := [EmailMessage]]
      else errors;
    var errors :=
      if request.username.None? || IsBlank(request.username.value) then errors["username" := [UsernameMessage]]
      else errors;
    var errors :=
      if request.password.None? || IsBlank(request.password.value) then errors["password" := [PasswordMessage]]
      else errors;
    var errors :=
      if request.password.Some? && |request.password.value| < MinPasswordLength then
        errors["password" := [PasswordLengthMessage]]
      else errors;
    if |errors| != 0 then
      Failure(ValidationException("validation_error", "invalid fields", errors))
    else
      Success(())
  }

  /** Wherever the original validator does not crash, the guarded one agrees with it. */
  lemma GuardedAgreesWhenPasswordPresent(request: RegisterRequest)
    requires request.password.Some?
    ensures ValidateGuarded(request).Success? <==> ValidateRegisterRequest(request).Success?
    ensures ValidateGuarded(request).Failure? ==>
      ValidateRegisterRequest(request) == Failure(Invalid(ValidateGuarded(request).error))
  {
  }

  /** Registration that never crashes and never replaces a stored record. */
  function RegisterGuarded(store: Store, request: RegisterRequest, uuid: string, now: Instant): (r: Registration)
    ensures r.outcome.Failure? ==> r.store == store
    ensures r.outcome.Failure? ==> r.outcome.error.Invalid? || r.outcome.error.Conflict?
    ensures r.outcome.Failure? && r.outcome.error.Conflict? <==>
      ValidateGuarded(request).Success? && Trim(request.email.value) in store
    ensures r.outcome.Success? ==>
      var u := r.outcome.value.user;
      && ValidateGuarded(request).Success?
      && u.email !in store
      && u.id == UserIdPrefix + uuid
      && u.email == Trim(request.email.value)
      && u.username == Trim(request.username.value)
      && u.password == request.password.value
      && u.createdAt == u.updatedAt == now
      && r.store.Keys == store.Keys + {u.email}
      && r.store[u.email] == u
    ensures forall e :: e in store ==> e in r.store && r.store[e] == store[e]
    ensures r.outcome.Success? <==> ValidateGuarded(request).Success? && Trim(request.email.value) !in store
    ensures r.outcome.Failure? && r.outcome.error.Invalid? ==>
      ValidateGuarded(request).Failure? && r.outcome.error.validation == ValidateGuarded(request).error
    ensures Keyed(store) && r.outcome.Success? ==>
      forall e :: e in store ==> store[e].email != r.outcome.value.user.email
  {
    match ValidateGuarded(request)
    case Failure(e) => Registration(Failure(Invalid(e)), store)
    case Success(_) =>
      match CheckEmailConflict(store, Trim(request.email.value))
      case Failure(f) => Registration(Failure(f), store)
      case Success(_) =>
        var user := CreateUser(request, uuid, now);
        Registration(Success(RegisterResponse(RegisterSuccess, user)), Save(store, user))
  }

  /** As written, a request without a password crashes the service. */
  lemma NullPasswordCrashes(store: Store, uuid: string, now: Instant)
    ensures Register(store, RegisterRequest(Some("a@b.co"), Some("bob"), None), uuid, now).outcome
      == Failure(NullPointer)
  {
  }

  /** Corrected, the same request is a validation error on `password` alone. */
  lemma NullPasswordReported(store: Store, uuid: string, now: Instant)
    ensures var r := RegisterGuarded(store, RegisterRequest(Some("a@b.co"), Some("bob"), None), uuid, now);
      && r.outcome.Failure? && r.outcome.error.Invalid?
      && r.outcome.error.validation.details == map["password" := [PasswordMessage]]
  {
    var request := RegisterRequest(Some("a@b.co"), Some("bob"), None);
    assert !IsTrimmable(request.username.value[0]);
    assert !IsTrimmable(request.email.value[0]);
    var e := ValidateGuarded(request).error;
    assert e.details.Keys == {"password"};
  }

  /** As written, an email padded with a leading space passes the duplicate
      check, and a second account, with a fresh id, is saved with the email
      the stored account already has. */
  lemma PaddedEmailRegistersDuplicate(existing: User, uuid: string, now: Instant)
    requires existing.email == "a@b.co" && existing.id != UserIdPrefix + uuid
    ensures var request := RegisterRequest(Some(" a@b.co"), Some("bob"), Some("password123"));
      var r := Register(map["a@b.co" := existing], request, uuid, now);
      && r.outcome.Success?
      && r.outcome.value.user.email == existing.email
      && r.outcome.value.user.id != existing.id
  {
    var request := RegisterRequest(Some(" a@b.co"), Some("bob"), Some("password123"));
    assert !IsTrimmable(request.email.value[1]);
    assert !IsTrimmable(request.username.value[0]);
    assert !IsTrimmable(request.password.value[0]);
    assert request.email.value[2] == '@' && request.email.value[4] == '.';
    assert ValidateRegisterRequest(request).Success?;
    assert " a@b.co" !in map["a@b.co" := existing];
    assert Trim(" a@b.co") == "a@b.co" by {
      assert LeadingEnd(" a@b.co", 0) == 1;
      assert TrailingStart(" a@b.co", 1, 7) == 7;
    }
  }
}
