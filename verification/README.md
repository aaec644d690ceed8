# Account authentication core, modelled in Dafny

This project models the authentication core of the `account` service of a small
exchange simulator. The core covers five things:

- registering a user (`AccountService.register`);
- the JSON Web Token codec that issues and reads the access token (`JwtUtil` and the near-duplicate `JwtService`);
- the bearer-token filter that authenticates each request (`JwtAuthenticationFilter`);
- the route policy with its 401 handlers (`SecurityConfig`);
- the mapping from service results to HTTP status and error body (`AccountController`).

It also models the stricter reference validators of the validation tests
(`ValidationTest`). Everything is pure functions over immutable datatypes. The
clock, the random UUID, the user store and the token-text decoder are parameters.

Modules, one per source unit:

| module | file | models |
|---|---|---|
| `Wrappers` | wrappers.dfy | `Option` (nullable reference), `Result` (value or thrown exception) |
| `Text` | text.dfy | `String.trim`, `contains`, `indexOf`, `lastIndexOf`, `startsWith` |
| `Account` | account.dfy | `User`, the request/response records, the two exceptions, `ErrorResponse`, the store |
| `AccountService` | account_service.dfy | `register` and its private helpers, as written |
| `RegistrationFixed` | registration_fixed.dfy | registration with the two defects below corrected |
| `Jws` | jws.dfy | the JWT library: idealised HMAC signing, token issue and parse |
| `JwtUtil` | jwt_util.dfy | `JwtUtil` |
| `JwtService` | jwt_service.dfy | `JwtService` |
| `AuthFilter` | auth_filter.dfy | `JwtAuthenticationFilter.doFilterInternal` as an ordered list of effects |
| `SecurityConfig` | security_config.dfy | the permit/authenticate rules and the two 401 handlers |
| `AccountController` | account_controller.dfy | the four endpoints' result mapping, plus end-to-end lemmas |
| `ValidationRules` | validation_rules.dfy | the test-suite username, email and password rules |

The token follows RFC 7519: `sub` is section 4.1.2, `iat` section 4.1.6 and
`exp` section 4.1.4, plus the custom claims `email` and `username`. It is signed
as a JWS compact serialization (section 7.1 of RFC 7515) with an HMAC algorithm
(section 3.2 of RFC 7518). The MAC is idealised: the tag of claims `c` under key
`k` is the term `Mac(k, c)`. A tag therefore
verifies only under the key and the exact claims it was made from. The
`Bearer ` prefix is the one in section 2.1 of RFC 6750.

Where the code departs from the behaviour its design intends, the model follows the code:

- An expiration equal to the current instant is still valid. Both the JWT parser and `Date.before` compare strictly.
- The duplicate check uses the raw request email, not the trimmed one (see Findings).
- A null password crashes validation instead of being reported (see Findings).
- The field keys are `email`, `username` and `password`.
- The service has no username-length rule. So a two-character username registers, although a controller test expects 400 (`ValidationRules.ServiceUsernameIsWeaker`).
- The not-found body is `user_not_found` / `User not found`, where a controller test expects `not_found`.

Two results of the proofs:

- `JwtUtil` reads the clock inside the parser, and the parser already rejects expired tokens. So `isTokenExpired` called with one clock reading never returns true (`JwtUtil.IsTokenExpired`).
- The two codecs ship different default secrets. With default configuration, `JwtUtil`, which the filter uses, rejects every token `JwtService` issues (`JwtService.DefaultConfigurationsDisagree`).

## Model

| member | source | states |
|---|---|---|
| `Text.Trim` | account/src/main/java/account/service/AccountService.java:67-68 | trimming removes only characters at or below U+0020 from the two ends, the result is empty exactly when every character is trimmable, and a non-empty result has no trimmable end |
| `Text.TrimIdempotent` | account/src/main/java/account/service/AccountService.java:67-68 | trimming a trimmed string changes nothing |
| `AccountService.IsValidEmail` | account/src/main/java/account/service/AccountService.java:79-81 | the service's email check passes exactly when `@` and `.` both occur somewhere in the string |
| `Account.ExistsByEmail` | account/src/main/java/account/repository/UserRepository.java:13 | in a store that files every record under its own email, the lookup is true exactly when some stored record carries that email |
| `Account.Save` | account/src/main/java/account/service/AccountService.java:26 | the saved record is stored under its email and every other record is kept. A store filing each record under its own email stays so |
| `AccountService.WeakEmailAccepts` | account/src/main/java/account/service/AccountService.java:79-81 | the check accepts `@example.com` and `test@.com` as well as `test@example.com` |
| `AccountService.WeakEmailRejects` | account/src/main/java/account/service/AccountService.java:79-81 | the check rejects `invalid-email` (no `@`) and `test@` (no `.`) |
| `AccountService.ValidateRegisterRequest` | account/src/main/java/account/service/AccountService.java:31-53 | a null password is a null-pointer fault and nothing else is. Otherwise validation fails iff some field is rejected. The error is `("validation_error","invalid fields")` and its map has exactly the rejected fields as keys, each with one message; the length message replaces the blank message for `password` |
| `AccountService.PasswordBoundary` | account/src/main/java/account/service/AccountService.java:44-49 | seven characters pass and six fail. A short blank password gets only the length message; a blank password of seven characters gets the blank message |
| `AccountService.CheckEmailConflict` | account/src/main/java/account/service/AccountService.java:55-59 | the check passes iff no record is stored under exactly this email; otherwise it raises `("conflict","email already registered")` |
| `AccountService.GenerateUserId` | account/src/main/java/account/service/AccountService.java:75-77 | the id starts with `usr_`, and removing that prefix gives back the UUID text |
| `AccountService.CreateUser` | account/src/main/java/account/service/AccountService.java:61-73 | the new user has the prefixed id, the trimmed username and email, the password unchanged, and equal creation and update instants |
| `AccountService.Register` | account/src/main/java/account/service/AccountService.java:21-29 | every failure leaves the store unchanged. Validation decides first, then the conflict check on the raw email. It succeeds exactly when validation passes and the raw email is not stored. Success saves the new record under its trimmed email and returns it with `register success`. In the email-keyed store, a record already filed under that trimmed email is replaced (see Left out) |
| `AccountService.RegisterKeepsStoreKeyed` | account/src/main/java/account/service/AccountService.java:21-29 | registration keeps every record filed under its own email |
| `AccountService.ValidationIgnoresStore` | account/src/main/java/account/service/AccountService.java:21-23 | invalid input gives the same outcome whatever the store holds, so the store is never consulted |
| `AccountService.ValidationPrecedesConflict` | account/src/main/java/account/service/AccountService.java:22-23 | a request with a password, whose email is stored and which fails validation, gets a validation error, not a conflict |
| `AccountService.SecondRegistrationConflicts` | account/src/main/java/account/service/AccountService.java:23-26 | a valid request whose already-trimmed email is not stored succeeds; a valid second request with that email is then a conflict whatever its other fields, and leaves the store as it was |
| `RegistrationFixed.ValidateGuarded` | account/src/main/java/account/service/AccountService.java:44-49 | with the length check guarded, a null password becomes a `password` field error; every other field keeps the same rule and message |
| `RegistrationFixed.GuardedAgreesWhenPasswordPresent` | account/src/main/java/account/service/AccountService.java:31-53 | when a password is present, the guarded and original validators give the same verdict and the same error |
| `RegistrationFixed.RegisterGuarded` | account/src/main/java/account/service/AccountService.java:21-29 | corrected registration never crashes. It succeeds exactly when the guarded validation passes and the trimmed email is not stored, and a validation failure carries the guarded validator's error. It never replaces or removes a stored record, and no stored record carries the email of an account it creates |
| `RegistrationFixed.NullPasswordCrashes` | account/src/main/java/account/service/AccountService.java:44-47 | as written, a request without a password ends in a null-pointer fault |
| `RegistrationFixed.NullPasswordReported` | account/src/main/java/account/service/AccountService.java:44-49 | corrected, the same request is a validation error on `password` alone |
| `RegistrationFixed.PaddedEmailRegistersDuplicate` | account/src/main/java/account/service/AccountService.java:23-26 | as written, ` a@b.co` passes the duplicate check against a stored `a@b.co`. A second account with a fresh id and the already-registered email `a@b.co` is saved |
| `Jws.KeyForInjective` | account/src/main/java/account/util/JwtUtil.java:22 | distinct secrets derive distinct keys |
| `Jws.SignInjective` | account/src/main/java/account/util/JwtUtil.java:36 | two tags agree only when both the key and the claims agree |
| `Jws.Issue` | account/src/main/java/account/util/JwtUtil.java:30-37 | an issued token carries its tag under the signing key. Subject, issue and expiry instants are as given. Custom claims are kept except names the builder sets itself (`sub`, `iat`, `exp`) |
| `Jws.Parse` | account/src/main/java/account/util/JwtUtil.java:40-45 | a parsed token is exactly the issue of its claims under this key and is not yet expired. A garbled token is malformed, and a tag from another key or other claims is a signature mismatch |
| `Jws.ParseIssued` | account/src/main/java/account/util/JwtUtil.java:26-45 | round trip: parsing an issued token returns its claims until the expiration instant, then reports it expired |
| `Jws.WrongKeyRejected` | account/src/main/java/account/util/JwtUtil.java:40-45 | a token signed under one key is a signature mismatch under any other key, at any time |
| `Jws.TamperedRejected` | account/src/main/java/account/util/JwtUtil.java:40-45 | changing any claim of a signed token, expiry included, makes it a signature mismatch, whether or not it had expired |
| `JwtUtil.New` | account/src/main/java/account/util/JwtUtil.java:20-24 | the key is the one derived from the configured secret and no other secret's key; the time-to-live is kept |
| `JwtUtil.ProfileClaims` | account/src/main/java/account/util/JwtUtil.java:32-33 | the custom claims hold `email` and `username` exactly when they are non-null, with those values |
| `JwtUtil.GenerateToken` | account/src/main/java/account/util/JwtUtil.java:26-38 | the token is signed with the configured key. Its subject is the user id and it carries the email and username. It is issued now and expires `expirationTime` seconds later |
| `JwtUtil.ExtractClaims` | account/src/main/java/account/util/JwtUtil.java:40-46 | returned claims are those of a token signed with the configured key and not yet expired; the only failures are malformed, bad signature and expired |
| `JwtUtil.ExtractUserId` | account/src/main/java/account/util/JwtUtil.java:48-50 | succeeds exactly when the claims verify, and returns the verified subject |
| `JwtUtil.ExtractEmail` | account/src/main/java/account/util/JwtUtil.java:52-54 | succeeds exactly when the claims verify, and returns the verified `email` claim or null |
| `JwtUtil.ExtractUsername` | account/src/main/java/account/util/JwtUtil.java:56-58 | succeeds exactly when the claims verify, and returns the verified `username` claim or null |
| `JwtUtil.IsTokenExpired` | account/src/main/java/account/util/JwtUtil.java:60-62 | true iff the verified expiration is strictly before the second clock reading; never true when that reading is not later than the parser's |
| `JwtUtil.ValidateToken` | account/src/main/java/account/util/JwtUtil.java:64-66 | reads the clock three times: the parse for the subject, the parse for the expiration, and `new Date()`. The result is true iff both parses succeed, the subject equals the id, and the expiration is not before the third reading. A missing subject is a null-pointer failure. `Expired` is thrown exactly when the verified token expires before the first parse, or before the second when the subject matches. Other codec failures of the first parse pass through Once the first parse succeeds, the only failures are the null subject and `Expired`. |
| `JwtUtil.ExtractGenerated` | account/src/main/java/account/util/JwtUtil.java:26-58 | round trip: until expiry, the extractors return exactly the user id, email and username the token was generated from |
| `JwtUtil.OtherSecretRejected` | account/src/main/java/account/util/JwtUtil.java:40-45 | a token generated under one secret is a signature mismatch for a codec built from another secret |
| `JwtUtil.GarbledRejected` | account/src/main/java/account/util/JwtUtil.java:40-45 | a token text that does not decode is rejected as malformed |
| `JwtUtil.NegativeTtlExpired` | account/src/main/java/account/util/JwtUtil.java:26-45 | a token issued with negative time-to-live is already expired when read at its issue instant, so it never yields claims |
| `JwtUtil.FreshTokenNotExpired` | account/src/main/java/account/util/JwtUtil.java:60-62 | a fresh token with a positive time-to-live is not expired |
| `JwtUtil.ExpiredBetweenReadings` | account/src/main/java/account/util/JwtUtil.java:60-62 | a token whose expiration falls between the parser's reading and `new Date()` is reported expired |
| `JwtUtil.ExpiresDuringValidation` | account/src/main/java/account/util/JwtUtil.java:64-66 | a token that expires between the two parses makes validation throw `Expired`; one that expires between the second parse and `new Date()` gives false |
| `JwtUtil.OtherUserIdInvalid` | account/src/main/java/account/util/JwtUtil.java:64-66 | with a positive time-to-live, a fresh token validates for its own user id and not for any other |
| `JwtService.SignInKey` | account/src/main/java/account/service/JwtService.java:82-84 | the key is the one `JwtUtil` derives from the same secret, and no other secret derives it |
| `JwtService.GenerateToken` | account/src/main/java/account/service/JwtService.java:34-42 | the token is signed with the key derived from the configured secret. The subject overrides the extra claims, which are otherwise kept. The clock is read twice: `iat` is the first reading and `exp` is `jwtExpiration * 1000` ms after the second, so `exp` is at least `iat` plus the time-to-live |
| `JwtService.GenerateTokenFor` | account/src/main/java/account/service/JwtService.java:26-32 | a user's token has the user id as subject and the user's username and email as its only custom claims; it lives at least the configured time-to-live |
| `JwtService.ExtractAllClaims` | account/src/main/java/account/service/JwtService.java:74-80 | returned claims are those of a token signed with the configured key and not yet expired |
| `JwtService.ExtractClaim` | account/src/main/java/account/service/JwtService.java:69-72 | every extractor sees only claims verified under the configured key, and fails exactly when they do not verify |
| `JwtService.ExtractUserId` | account/src/main/java/account/service/JwtService.java:57-59 | succeeds exactly when the claims verify, and returns the verified subject |
| `JwtService.ExtractUsername` | account/src/main/java/account/service/JwtService.java:61-63 | succeeds exactly when the claims verify, and returns the verified `username` claim or null |
| `JwtService.ExtractEmail` | account/src/main/java/account/service/JwtService.java:65-67 | succeeds exactly when the claims verify, and returns the verified `email` claim or null |
| `JwtService.ExtractExpiration` | account/src/main/java/account/service/JwtService.java:53-55 | succeeds exactly when the claims verify, and returns the verified expiration, which is never before the parser's reading |
| `JwtService.IsTokenExpired` | account/src/main/java/account/service/JwtService.java:49-51 | true iff the verified expiration is strictly before the second clock reading (`new Date()`); never true when that reading is not later than the parser's |
| `JwtService.ExpiredBetweenReadings` | account/src/main/java/account/service/JwtService.java:49-51 | a user's token whose expiration falls between the parser's reading and `new Date()` is reported expired |
| `JwtService.IsTokenValid` | account/src/main/java/account/service/JwtService.java:44-47 | reads the clock three times: the parse for the subject, the parse for the expiration, and `new Date()`. The result is true iff both parses succeed, the subject equals the id, and the expiration is not before the third reading. A missing subject is a null-pointer failure. `Expired` is thrown exactly when the verified token expires before the first parse, or before the second when the subject matches Once the first parse succeeds, the only failures are the null subject and `Expired`. |
| `JwtService.ExpiresDuringValidation` | account/src/main/java/account/service/JwtService.java:44-51 | a user's token that expires between the two parses makes `isTokenValid` throw `Expired`; one that expires between the second parse and `new Date()` gives false |
| `JwtService.UserTokenRoundTrip` | account/src/main/java/account/service/JwtService.java:26-67 | until expiry, whatever the two issuing clock readings, a user's token yields that user's id, username and email, and it validates for that id |
| `JwtService.OtherSecretRejected` | account/src/main/java/account/service/JwtService.java:74-84 | a service configured with another secret rejects the token as a signature mismatch |
| `JwtService.CodecsAgreeOnSharedSecret` | account/src/main/java/account/service/JwtService.java:26-41 | with the same secret and time-to-live, and a single clock reading, both codecs issue tokens with the same claims and the same signature, which each codec accepts. The serialized token texts may still differ in claim order, which is not modelled |
| `JwtService.DefaultConfigurationsDisagree` | account/src/main/java/account/service/JwtService.java:20-21 | the default secrets differ, so the default `JwtUtil` rejects tokens issued by the default `JwtService` |
| `AuthFilter.DoFilterInternal` | account/src/main/java/account/middleware/JwtAuthenticationFilter.java:31-73 | the chain is invoked exactly once, as the last effect. A missing or non-`Bearer ` header, or an existing authentication, gives no other effect |
| `AuthFilter.FilterAuthenticates` | account/src/main/java/account/middleware/JwtAuthenticationFilter.java:41-65 | the filter authenticates iff the context is empty, the header has the `Bearer ` prefix, and the token after it verifies, is unexpired and has a subject. The principal is then that subject, and the attributes `userId`/`email`/`username` come from the same token |
| `AuthFilter.ExistingAuthenticationKept` | account/src/main/java/account/middleware/JwtAuthenticationFilter.java:47 | an authentication already in the context is never replaced |
| `AuthFilter.CodecFailureSwallowed` | account/src/main/java/account/middleware/JwtAuthenticationFilter.java:67-72 | any codec failure is swallowed: the only effect is continuing the chain |
| `AuthFilter.IssuedTokenAuthenticates` | account/src/main/java/account/middleware/JwtAuthenticationFilter.java:41-64 | a token issued under the same configuration, presented before expiry, authenticates its user id with its email and username as attributes |
| `SecurityConfig.MatchesUserRoute` | account/src/main/java/account/config/SecurityConfig.java:29 | `/account/users/{id}` matches exactly `/account/users/` followed by one non-empty segment |
| `SecurityConfig.RequiredUnfolds` | account/src/main/java/account/config/SecurityConfig.java:27-30 | the first matching rule decides: a path needs authentication iff it matches neither public pattern and matches a protected one |
| `SecurityConfig.RequiredAccess` | account/src/main/java/account/config/SecurityConfig.java:27-30 | exactly `/account/me` and the single-user paths need authentication; every other path is permitted |
| `SecurityConfig.RegisterAndLoginPublic` | account/src/main/java/account/config/SecurityConfig.java:28 | register and login are permitted regardless of authentication |
| `SecurityConfig.AuthenticationEntryPoint` | account/src/main/java/account/config/SecurityConfig.java:32-36 | status 401 with the JSON error object whose `error` is `unauthorized` and `message` is `Authentication required` |
| `SecurityConfig.AccessDeniedHandler` | account/src/main/java/account/config/SecurityConfig.java:37-41 | the same status and error code as the entry point, with `message` `Access denied`, so the two answers differ only in the message |
| `SecurityConfig.Authorize` | account/src/main/java/account/config/SecurityConfig.java:27-41 | an anonymous request to a protected path gets 401 with the `Authentication required` body, and every other request proceeds. The `Access denied` handler is never reached |
| `AccountController.Register` | account/src/main/java/account/controller/AccountController.java:28-46 | success gives 201 with the response unchanged. A validation error gives 400 with error, message and details copied; a conflict gives 409 with null details. Any other fault propagates |
| `AccountController.Login` | account/src/main/java/account/controller/AccountController.java:48-63 | success gives 200 and a validation error gives 400 with details. Every other failure gives 401 `invalid_credentials` |
| `AccountController.LoginHidesCause` | account/src/main/java/account/controller/AccountController.java:59-62 | any two non-validation login failures give the identical response |
| `AccountController.GetCurrentUser` | account/src/main/java/account/controller/AccountController.java:65-77 | 200 with the profile iff there is a principal and its lookup succeeds; otherwise 404 `user_not_found` |
| `AccountController.GetUser` | account/src/main/java/account/controller/AccountController.java:79-88 | 200 with the profile iff the lookup succeeds; otherwise 404 `user_not_found` |
| `AccountController.MeIsLookupOfPrincipal` | account/src/main/java/account/controller/AccountController.java:65-88 | `/me` answers exactly as `/users/{id}` does for the principal's id |
| `AccountController.NullPasswordEscapesRegister` | account/src/main/java/account/controller/AccountController.java:28-46 | a registration without password is not answered: the null-pointer fault escapes the handler |
| `AccountController.RegisterStatuses` | account/src/main/java/account/controller/AccountController.java:28-46 | through service and controller, invalid input gives 400, a stored email 409 `conflict`, and otherwise 201 |
| `AccountController.ProtectedLookupUniform401` | account/src/main/java/account/config/SecurityConfig.java:29-36 | a protected lookup with no bearer header, or with a garbled, wrongly signed or expired token, gets the same 401 entry-point body |
| `ValidationRules.IsValidUsername` | account/src/test/java/account/validation/ValidationTest.java:96-98 | the scanner accepts exactly the non-null names of 3 to 32 characters from `[A-Za-z0-9_-]` |
| `ValidationRules.UsernameExamples` | account/src/test/java/account/validation/ValidationTest.java:55-69 | `abc`, `user123`, `test_user`, `user-name` and 32 letters pass. Two letters, 33 letters, names with `@`, space or `.`, the empty string and null fail |
| `ValidationRules.MatchesEmailIsPattern` | account/src/test/java/account/validation/ValidationTest.java:15 | the first-`@`/last-`.` scanner accepts exactly the strings the email expression matches |
| `ValidationRules.IsValidEmail` | account/src/test/java/account/validation/ValidationTest.java:88-90 | valid iff non-null and the expression matches: non-empty local part, `@`, non-empty domain run, `.`, at least two letters |
| `ValidationRules.EmailAcceptedExample1` | account/src/test/java/account/validation/ValidationTest.java:23 | `test@example.com` is accepted |
| `ValidationRules.EmailAcceptedExample2` | account/src/test/java/account/validation/ValidationTest.java:24 | `user.name@domain.co.uk` is accepted |
| `ValidationRules.EmailAcceptedExample3` | account/src/test/java/account/validation/ValidationTest.java:25 | `user+tag@example.org` is accepted |
| `ValidationRules.EmailAcceptedExample4` | account/src/test/java/account/validation/ValidationTest.java:26 | `123@example.com` is accepted |
| `ValidationRules.EmailRejectedNoAt` | account/src/test/java/account/validation/ValidationTest.java:29-35 | `invalid-email`, `test.example.com`, the empty string and null are rejected |
| `ValidationRules.EmailRejectedEmptyLocal` | account/src/test/java/account/validation/ValidationTest.java:30 | `@example.com` is rejected |
| `ValidationRules.EmailRejectedNoLabel` | account/src/test/java/account/validation/ValidationTest.java:31 | `test@` is rejected |
| `ValidationRules.EmailRejectedEmptyDomain` | account/src/test/java/account/validation/ValidationTest.java:33 | `test@.com` is rejected |
| `ValidationRules.IsValidPassword` | account/src/test/java/account/validation/ValidationTest.java:92-94 | valid iff non-null with at least seven characters, the service's minimum length |
| `ValidationRules.PasswordExamples` | account/src/test/java/account/validation/ValidationTest.java:38-50 | `1234567`, `password123`, `abcdefg`, `P@ssw0rd!` and `very_long_password_123` pass; `123456`, `12345`, `abc`, the empty string and null fail |
| `ValidationRules.PatternEmailPassesService` | account/src/main/java/account/service/AccountService.java:79-81 | every address the test expression accepts also passes the service's check |
| `ValidationRules.ServiceEmailIsWeaker` | account/src/main/java/account/service/AccountService.java:79-81 | the service accepts `@example.com` and `test@.com`, which the expression rejects |
| `ValidationRules.PatternUsernamePassesService` | account/src/main/java/account/service/AccountService.java:40-42 | every username the test expression accepts passes the service |
| `ValidationRules.ServiceUsernameIsWeaker` | account/src/main/java/account/service/AccountService.java:40-42 | the service accepts `ab`, which the test expression rejects |
| `ValidationRules.ServicePasswordIsStricter` | account/src/main/java/account/service/AccountService.java:44-49 | a password the service accepts passes the test rule. Seven spaces pass the test rule but are rejected by the service as blank |

## Left out

- HMAC-SHA, base64url and JSON inside the JWT library: the MAC is the symbolic tag `Mac(key, claims)`.
- `Keys.hmacShaKeyFor` rejects secrets shorter than 256 bits and picks the algorithm from the key length. Neither is modelled: any secret gives a key.
- Decoding a token string into header, claims and tag belongs to the JWT library. It is the parameter `decode` of the filter; the codec functions work on decoded tokens.
- Wall clock and `UUID.randomUUID`: both are parameters. Instants are epoch milliseconds. The truncation of `iat`/`exp` to whole seconds in the token is not modelled.
- AuthFilter.DoFilterInternal: uses one clock reading for all five parses the filter makes (`extractUserId`, the two inside `validateToken`, `extractEmail`, `extractUsername`) and for `new Date()`. A token that expires during the filter is not modelled. In the source, `validateToken` would then throw or return false, or `extractEmail`/`extractUsername` would throw after the authentication was set. Those last branches are written out but cannot occur here. `JwtUtil.ValidateToken` itself takes the three readings separately.
- JwtService.GenerateToken: does not model the 64-bit overflow of `jwtExpiration * 1000` or of the millisecond sum, because integers are unbounded here.
- JwtUtil.GenerateToken: does not model the `ArithmeticException` that `Instant.plus` throws on overflow, for the same reason.
- Java string length counts UTF-16 units, while the model counts characters. They differ only outside the Basic Multilingual Plane.
- Account.Save: the store is keyed by email, while the repository is keyed by the `@Id` field `id`. Where the source inserts a second row with an already-registered email, the model replaces the record filed under that email. The padded-email finding is therefore stated on the returned account, not on the store.
- The repository is reactive R2DBC: `existsByEmail` and `save` return `Mono`, and the service uses them as plain values. The store is modelled as a synchronous map from email to `User`. The check-then-insert race between concurrent registrations is a concurrency issue and is left out.
- `User` declares `OffsetDateTime` timestamps while the service passes an `Instant`. Both are one instant type here.
- The request and response records `RegisterRequest`, `RegisterResponse` and `LoginRequest`: their declarations are not modelled; their fields are inferred from the accessors the service calls.
- `AccountService.login` and `getUserById` do not exist in the service, so the controller receives their results as parameters. Credential comparison and refresh tokens are not modelled.
- Tokens without an `exp` claim cannot be represented, since both issuers always set one. Claim values are strings. Extra claims that share a name with a registered claim other than `sub`, `iat` and `exp` (such as `nbf`) are treated as plain strings.
- Spring Security plumbing is not modelled: the security context, `WebAuthenticationDetailsSource` details, the servlet chain, response content type and JSON writing. The context is an optional principal; a response is a status and a body.
- Path matching compares raw `/`-separated segments. URL decoding, context and servlet path prefixes and trailing-slash options are not modelled.
- Password hashing is not modelled; the code stores and echoes the plaintext password.
- The gateway and wallet services, application bootstraps and build files are not modelled.

## Findings

| source | as written | input that shows it | evidently intended | confidence | as-written member | corrected member |
|---|---|---|---|---|---|---|
| account/src/main/java/account/service/AccountService.java:44-49 | `request.password().length()` runs even after the null check recorded an error | a registration body without `password` | a `password` validation error (400) | high; not executed | `RegistrationFixed.NullPasswordCrashes` | `RegistrationFixed.ValidateGuarded` |
| account/src/main/java/account/service/AccountService.java:23-26 | the duplicate check uses the raw email, but line 68 stores the trimmed one, so a duplicate account with an already-registered email is saved | store holds `a@b.co`; register ` a@b.co` | a conflict, because the trimmed email is already registered | medium (depends on the database's string comparison and any unique constraint on `email`); not executed | `RegistrationFixed.PaddedEmailRegistersDuplicate` | `RegistrationFixed.RegisterGuarded` |
