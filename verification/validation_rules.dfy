/** The stricter reference rules the account module's validation tests apply,
    written as character scanners and proved equal to the meaning of their
    regular expressions:
      username  ^[A-Za-z0-9_-]{3,32}$
      email     ^[A-Za-z0-9+_.-]+@([A-Za-z0-9.-]+\.[A-Za-z]{2,})$
      password  non-null with at least 7 characters.
    A null string is `None` and is rejected by all three. */
module ValidationRules {
  import opened Wrappers
  import opened Text
  import AccountService

  predicate IsLetter(c: char) {
    ('A' <= c <= 'Z') || ('a' <= c <= 'z')
  }

  predicate IsDigit(c: char) {
    '0' <= c <= '9'
  }

  /** `[A-Za-z0-9_-]` */
  predicate IsUsernameChar(c: char) {
    IsLetter(c) || IsDigit(c) || c == '_' || c == '-'
  }

  /** `[A-Za-z0-9+_.-]` */
  predicate IsLocalChar(c: char) {
    IsLetter(c) || IsDigit(c) || c == '+' || c == '_' || c == '.' || c == '-'
  }

  /** `[A-Za-z0-9.-]` */
  predicate IsDomainChar(c: char) {
    IsLetter(c) || IsDigit(c) || c == '.' || c == '-'
  }

  /** Whether every character of `s[i..j]` is in `charClass`, scanning left to right. */
  function Span(s: string, i: nat, j: nat, charClass: char -> bool): (r: bool)
    requires i <= j <= |s|
    ensures r <==> forall k :: i <= k < j ==> charClass(s[k])
    decreases j - i
  {
    if i == j then true else charClass(s[i]) && Span(s, i + 1, j, charClass)
  }

  /** What the username expression accepts. */
  ghost predicate UsernamePattern(s: string) {
    3 <= |s| <= 32 && forall k :: 0 <= k < |s| ==> IsUsernameChar(s[k])
  }

  function IsValidUsername(username: Option<string>): (r: bool)
    ensures r <==> username.Some? && UsernamePattern(username.value)
  {
    username.Some? && 3 <= |username.value| <= 32 && Span(username.value, 0, |username.value|, IsUsernameChar)
  }

  /** `s` splits as local part, `@` at `at`, domain run, `.` at `dot`, and a
      letters-only top-level label of two or more letters. */
  ghost predicate EmailShape(s: string, at: int, dot: int) {
    && 0 < at && at + 1 < dot && dot + 2 < |s|
    && s[at] == '@' && s[dot] == '.'
    && (forall k :: 0 <= k < at ==> IsLocalChar(s[k]))
    && (forall k :: at < k < dot ==> IsDomainChar(s[k]))
    && (forall k :: dot < k < |s| ==> IsLetter(s[k]))
  }

  /** What the email expression accepts: some split of the required shape. */
  ghost predicate EmailPattern(s: string) {
    exists at, dot :: EmailShape(s, at, dot)
  }

  /** The scanner: the `@` must be the first one (the local part has none) and
      the separating `.` the last one (the top-level label has none). */
  function MatchesEmail(s: string): bool {
    match IndexOf(s, '@', 0)
    case None => false
    case Some(at) =>
      match LastIndexOf(s, '.', |s|)
      case None => false
      case Some(dot) =>
        && 0 < at && at + 1 < dot && dot + 2 < |s|
        && Span(s, 0, at, IsLocalChar)
        && Span(s, at + 1, dot, IsDomainChar)
        && Span(s, dot + 1, |s|, IsLetter)
  }

  /** The scanner accepts exactly what the expression accepts. */
  lemma MatchesEmailIsPattern(s: string)
    ensures MatchesEmail(s) <==> EmailPattern(s)
  {
    if MatchesEmail(s) {
      var at := IndexOf(s, '@', 0).value;
      var dot := LastIndexOf(s, '.', |s|).value;
      assert EmailShape(s, at, dot);
    }
    if EmailPattern(s) {
      var at, dot :| EmailShape(s, at, dot);
      var first := IndexOf(s, '@', 0);
      assert first == Some(at) by {
        assert first.Some?;
      }
      var last := LastIndexOf(s, '.', |s|);
      assert last == Some(dot) by {
        assert last.Some?;
      }
    }
  }

  function IsValidEmail(email: Option<string>): (r: bool)
    ensures r <==> email.Some? && EmailPattern(email.value)
  {
    if email.None? then false
    else
      MatchesEmailIsPattern(email.value);
      MatchesEmail(email.value)
  }

  function IsValidPassword(password: Option<string>): (r: bool)
    ensures r <==> password.Some? && |password.value| >= AccountService.MinPasswordLength
  {
    password.Some? && |password.value| >= 7
  }

  /** The addresses the tests accept. */
  lemma EmailAcceptedExample1()
    ensures IsValidEmail(Some("test@example.com"))
  {
    assert EmailShape("test@example.com", 4, 12);
  }

  lemma EmailAcceptedExample2()
    ensures IsValidEmail(Some("user.name@domain.co.uk"))
  {
    assert EmailShape("user.name@domain.co.uk", 9, 19);
  }

  lemma EmailAcceptedExample3()
    ensures IsValidEmail(Some("user+tag@example.org"))
  {
    assert EmailShape("user+tag@example.org", 8, 16);
  }

  lemma EmailAcceptedExample4()
    ensures IsValidEmail(Some("123@example.com"))
  {
    assert EmailShape("123@example.com", 3, 11);
  }

  /** The addresses the tests reject: no `@`, empty local part, no
      top-level label, `@` missing, empty domain run, empty string, null. */
  lemma EmailRejectedNoAt()
    ensures !IsValidEmail(Some("invalid-email"))
    ensures !IsValidEmail(Some("test.example.com"))
    ensures !IsValidEmail(Some(""))
    ensures !IsValidEmail(None)
  {
    ContainsIsMembership("invalid-email", '@');
    ContainsIsMembership("test.example.com", '@');
  }

  lemma EmailRejectedEmptyLocal()
    ensures !IsValidEmail(Some("@example.com"))
  {
    assert IndexOf("@example.com", '@', 0) == Some(0);
  }

  lemma EmailRejectedNoLabel()
    ensures !IsValidEmail(Some("test@"))
  {
    assert LastIndexOf("test@", '.', 5).None?;
  }

  lemma EmailRejectedEmptyDomain()
    ensures !IsValidEmail(Some("test@.com"))
  {
    assert IndexOf("test@.com", '@', 0) == Some(4);
    assert LastIndexOf("test@.com", '.', 9) == Some(5);
  }

  /** The usernames the tests accept and reject, including both length bounds. */
  lemma UsernameExamples()
    ensures IsValidUsername(Some("abc"))
    ensures IsValidUsername(Some("user123"))
    ensures IsValidUsername(Some("test_user"))
    ensures IsValidUsername(Some("user-name"))
    ensures IsValidUsername(Some(seq(32, _ => 'a')))
    ensures !IsValidUsername(Some("ab"))
    ensures !IsValidUsername(Some(seq(33, _ => 'a')))
    ensures !IsValidUsername(Some("user@name"))
    ensures !IsValidUsername(Some("user name"))
    ensures !IsValidUsername(Some("user.name"))
    ensures !IsValidUsername(Some(""))
    ensures !IsValidUsername(None)
  {
    assert !IsUsernameChar("user@name"[4]);
    assert !IsUsernameChar("user name"[4]);
    assert !IsUsernameChar("user.name"[4]);
  }

  /** The passwords the tests accept and reject. */
  lemma PasswordExamples()
    ensures IsValidPassword(Some("1234567"))
    ensures IsValidPassword(Some("password123"))
    ensures IsValidPassword(Some("P@ssw0rd!"))
    ensures IsValidPassword(Some("abcdefg"))
    ensures IsValidPassword(Some("very_long_password_123"))
    ensures !IsValidPassword(Some("123456"))
    ensures !IsValidPassword(Some("abc"))
    ensures !IsValidPassword(Some(""))
    ensures !IsValidPassword(Some("12345"))
    ensures !IsValidPassword(None)
  {
  }

  /** Every address the expression accepts also passes the service's own check. */
  lemma PatternEmailPassesService(s: string)
    requires EmailPattern(s)
    ensures !AccountService.EmailRejected(Some(s))
  {
    var at, dot :| EmailShape(s, at, dot);
    assert s[at] == '@' && s[dot] == '.';
  }

  /** The converse fails: the service accepts addresses the expression rejects. */
  lemma ServiceEmailIsWeaker()
    ensures !AccountService.EmailRejected(Some("@example.com")) && !IsValidEmail(Some("@example.com"))
    ensures !AccountService.EmailRejected(Some("test@.com")) && !IsValidEmail(Some("test@.com"))
  {
    assert "@example.com"[0] == '@' && "@example.com"[8] == '.';
    assert "test@.com"[4] == '@' && "test@.com"[5] == '.';
  }

  /** Every username the expression accepts passes the service, which has no
      length or character rule: a two-character name passes it too. */
  lemma PatternUsernamePassesService(s: string)
    requires UsernamePattern(s)
    ensures !AccountService.UsernameRejected(Some(s))
  {
    assert !IsTrimmable(s[0]);
  }

  lemma ServiceUsernameIsWeaker()
    ensures !AccountService.UsernameRejected(Some("ab")) && !IsValidUsername(Some("ab"))
  {
    assert !IsTrimmable("ab"[0]);
  }

  /** The service rejects every password the reference rule rejects, and more:
      seven spaces pass the reference rule but are blank to the service. */
  lemma ServicePasswordIsStricter(p: string)
    ensures !AccountService.PasswordRejected(p) ==> IsValidPassword(Some(p))
    ensures IsValidPassword(Some("       ")) && AccountService.PasswordRejected("       ")
  {
  }
}
