/** The sign-in page: three handlers (sign in, sign up, request a reset link) that validate
    their fields in a fixed order, stop at the first failure, and otherwise make one call
    to the authentication service and turn its answer into a notice. Navigation after a
    successful sign-in is driven by the session listener and is not part of a handler. */
module AuthPage {
  import opened Wrappers
  import opened Text
  import opened Validation

  datatype AuthForm = AuthForm(email: string, password: string, name: string, showReset: bool)

  datatype SignInRequest = SignInRequest(email: string, password: string)
  datatype SignUpRequest = SignUpRequest(email: string, password: string, name: string)

  const InvalidCredentials := "Invalid login credentials"
  const WrongPassword := "Wrong email or password. Please try again."
  const AlreadyRegistered := "already registered"

  const AccountExists := Toast("Account exists", Some("This email is already registered. Please sign in."), true)
  const Welcome := Toast("Welcome!", Some("Account created successfully!"), false)
  const CheckYourEmail := Toast("Check your email", Some("We sent you a password reset link."), false)

  /** The sign-in error text: the service's "invalid credentials" message is replaced by a
      friendlier sentence; every other message is shown as it came. */
  function FriendlyMessage(message: string): (r: string)
    ensures message == InvalidCredentials ==> r == WrongPassword
    ensures message != InvalidCredentials ==> r == message
  {
    if message == InvalidCredentials then WrongPassword else message
  }

  /** Mapping twice is mapping once. */
  lemma FriendlyMessageIdempotent(message: string)
    ensures FriendlyMessage(FriendlyMessage(message)) == FriendlyMessage(message)
  {
  }

  /** The friendly sentence appears only for the credentials error or when the service
      itself sent that sentence, and no other message is merged with another. */
  lemma FriendlyMessageOnlyMergesCredentials(a: string, b: string)
    ensures FriendlyMessage(a) == WrongPassword <==> a == InvalidCredentials || a == WrongPassword
    ensures a != InvalidCredentials && b != InvalidCredentials ==>
      (FriendlyMessage(a) == FriendlyMessage(b) <==> a == b)
  {
  }

  /** Sign in validates the email, then the password. */
  function SignInChecks(f: AuthForm, validEmail: string -> bool): seq<Check> {
    [EmailCheck(f.email, validEmail), PasswordCheck(f.password)]
  }

  /** Sign up validates the email, then the password, then the name. */
  function SignUpChecks(f: AuthForm, validEmail: string -> bool): seq<Check> {
    SignInChecks(f, validEmail) + [NameCheck(f.name)]
  }

  /** `handleSignIn`: a refused form shows the first validation message and calls nothing;
      otherwise the raw email and password are sent, and a failure shows the (friendly)
      error. The form fields are left as they were. */
  function SignIn(f: AuthForm, validEmail: string -> bool, outcome: Outcome): (s: Submission<AuthForm, SignInRequest>)
    ensures s.form == f
    ensures s.call.Some? <==> validEmail(f.email) && |f.password| >= MinPasswordLength
    ensures !validEmail(f.email) ==> s.notice == Some(ValidationError(InvalidEmail))
    ensures validEmail(f.email) && |f.password| < MinPasswordLength ==> s.notice == Some(ValidationError(ShortPassword))
    ensures s.call.Some? ==> s.call.value == SignInRequest(f.email, f.password)
    ensures s.call.Some? && outcome.Ok? ==> s.notice.None?
    ensures s.call.Some? && outcome.Err? ==>
      s.notice == Some(Toast("Sign in failed", Some(FriendlyMessage(outcome.message)), true))
  {
    var checks := SignInChecks(f, validEmail);
    match FirstFailure(checks)
    case Some(m) =>
      Submission(f, None, Some(ValidationError(m)))
    case None =>
      assert checks[0].passes && checks[1].passes;
      var notice := if outcome.Ok? then None
        else Some(Toast("Sign in failed", Some(FriendlyMessage(outcome.message)), true));
      Submission(f, Some(SignInRequest(f.email, f.password)), notice)
  }

  /** The notice for a sign-up the service refused: an address already in use gets its own
      message, anything else is shown as it came. */
  function SignUpFailure(message: string): (t: Toast)
    ensures Contains(message, AlreadyRegistered) ==> t == AccountExists
    ensures !Contains(message, AlreadyRegistered) ==> t == Toast("Sign up failed", Some(message), true)
    ensures t.destructive
  {
    if Contains(message, AlreadyRegistered) then AccountExists
    else Toast("Sign up failed", Some(message), true)
  }

  /** `handleSignUp`: the same shape as sign in with the name checked last; a success
      shows the welcome notice. */
  function SignUp(f: AuthForm, validEmail: string -> bool, outcome: Outcome): (s: Submission<AuthForm, SignUpRequest>)
    ensures s.form == f
    ensures s.call.Some? <==>
      validEmail(f.email) && |f.password| >= MinPasswordLength && |f.name| >= MinNameLength
    ensures !validEmail(f.email) ==> s.notice == Some(ValidationError(InvalidEmail))
    ensures validEmail(f.email) && |f.password| < MinPasswordLength ==> s.notice == Some(ValidationError(ShortPassword))
    ensures validEmail(f.email) && |f.password| >= MinPasswordLength && |f.name| < MinNameLength ==>
      s.notice == Some(ValidationError(ShortName))
    ensures s.call.Some? ==> s.call.value == SignUpRequest(f.email, f.password, f.name)
    ensures s.call.Some? && outcome.Ok? ==> s.notice == Some(Welcome)
    ensures s.call.Some? && outcome.Err? ==> s.notice == Some(SignUpFailure(outcome.message))
  {
    var checks := SignUpChecks(f, validEmail);
    var first := SignInChecks(f, validEmail);
    assert FirstFailure(first).Some? ==> FirstFailure(checks) == FirstFailure(first) by {
      FirstFailureAppend(first, [NameCheck(f.name)]);
    }
    match FirstFailure(checks)
    case Some(m) =>
      Submission(f, None, Some(ValidationError(m)))
    case None =>
      assert checks[0].passes && checks[1].passes && checks[2].passes;
      var notice := if outcome.Ok? then Welcome else SignUpFailure(outcome.message);
      Submission(f, Some(SignUpRequest(f.email, f.password, f.name)), Some(notice))
  }

  /** Sign up refuses everything sign in refuses, with the same message; it only adds the
      name check at the end. */
  lemma SignUpRefinesSignIn(f: AuthForm, validEmail: string -> bool, outcome: Outcome)
    ensures SignUp(f, validEmail, outcome).call.Some? ==> SignIn(f, validEmail, outcome).call.Some?
    ensures SignIn(f, validEmail, outcome).call.None? ==>
      SignUp(f, validEmail, outcome).notice == SignIn(f, validEmail, outcome).notice
  {
    FirstFailureAppend(SignInChecks(f, validEmail), [NameCheck(f.name)]);
  }

  /** The service's "User already registered" reply is shown as the account-exists notice. */
  lemma ExistingAccountNotice()
    ensures SignUpFailure("User already registered") == AccountExists
  {
    var m := "User already registered";
    assert OccursAt(m, AlreadyRegistered, 5);
    ContainsIff(m, AlreadyRegistered);
  }

  /** `handleResetPassword`: only the email is validated; the service is asked to send a
      link to it. Success shows a notice and leaves the reset view; a failure shows the
      service's message and stays in it. */
  function RequestReset(f: AuthForm, validEmail: string -> bool, outcome: Outcome): (s: Submission<AuthForm, string>)
    ensures s.call.Some? <==> validEmail(f.email)
    ensures s.call.None? ==> s.form == f && s.notice == Some(ValidationError(InvalidEmail))
    ensures s.call.Some? ==> s.call.value == f.email
    ensures s.call.Some? && outcome.Ok? ==> s.form == f.(showReset := false) && s.notice == Some(CheckYourEmail)
    ensures s.call.Some? && outcome.Err? ==> s.form == f && s.notice == Some(Toast("Error", Some(outcome.message), true))
  {
    match FirstFailure([EmailCheck(f.email, validEmail)])
    case Some(m) =>
      Submission(f, None, Some(ValidationError(m)))
    case None =>
      assert [EmailCheck(f.email, validEmail)][0].passes;
      if outcome.Ok? then Submission(f.(showReset := false), Some(f.email), Some(CheckYourEmail))
      else Submission(f, Some(f.email), Some(Toast("Error", Some(outcome.message), true)))
  }

  /** A reset request needs no password: with a valid address it goes out even when the
      password field would fail sign in. */
  lemma ResetIgnoresPassword(f: AuthForm, validEmail: string -> bool, outcome: Outcome)
    requires validEmail(f.email) && |f.password| < MinPasswordLength
    ensures RequestReset(f, validEmail, outcome).call.Some?
    ensures SignIn(f, validEmail, outcome).call.None?
  {
  }
}
