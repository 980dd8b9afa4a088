/** The page reached from a password-reset link: it first checks that the link opened a
    recovery session, then lets the user choose a new password, typed twice. */
module ResetPassword {
  import opened Wrappers
  import opened Validation

  const ExpiredLink := Toast("Invalid or expired link", Some("Please request a new password reset link."), true)
  const Mismatch := Toast("Passwords do not match", Some("Please make sure both passwords are the same."), true)
  const Updated := Toast("Password updated", Some("Your password has been successfully updated."), false)

  const SignInRoute := "/auth"
  const HomeRoute := "/"

  /** What the page does in response to a check or a submit: the notice it shows and the
      route it moves to, if any. */
  datatype Reaction = Reaction(notice: Option<Toast>, navigate: Option<string>)

  /** On mount: without a session the link is reported as expired and the user is sent
      back to the sign-in page; with one nothing happens. */
  function CheckSession(hasSession: bool): (r: Reaction)
    ensures hasSession <==> r.notice.None?
    ensures hasSession <==> r.navigate.None?
    ensures !hasSession ==> r.notice == Some(ExpiredLink) && r.navigate == Some(SignInRoute)
  {
    if hasSession then Reaction(None, None) else Reaction(Some(ExpiredLink), Some(SignInRoute))
  }

  datatype PasswordForm = PasswordForm(password: string, confirm: string)

  /** One press of "Update password": the new password sent to the service (if any) and
      the page's reaction. */
  datatype PasswordStep = PasswordStep(call: Option<string>, reaction: Reaction)

  /** `handleUpdatePassword`: the length check runs first, then the confirmation must
      match; only then is the password sent. Success shows a notice and goes home; a
      failure shows the service's message and stays. */
  function UpdatePassword(f: PasswordForm, outcome: Outcome): (s: PasswordStep)
    ensures s.call.Some? <==> |f.password| >= MinPasswordLength && f.password == f.confirm
    ensures s.call.Some? ==> s.call.value == f.password
    ensures |f.password| < MinPasswordLength ==>
      s.reaction == Reaction(Some(ValidationError(ShortPassword)), None)
    ensures |f.password| >= MinPasswordLength && f.password != f.confirm ==>
      s.reaction == Reaction(Some(Mismatch), None)
    ensures s.call.Some? && outcome.Ok? ==> s.reaction == Reaction(Some(Updated), Some(HomeRoute))
    ensures s.call.Some? && outcome.Err? ==>
      s.reaction == Reaction(Some(Toast("Error", Some(outcome.message), true)), None)
  {
    match FirstFailure([PasswordCheck(f.password)])
    case Some(m) =>
      PasswordStep(None, Reaction(Some(ValidationError(m)), None))
    case None =>
      assert [PasswordCheck(f.password)][0].passes;
      if f.password != f.confirm then PasswordStep(None, Reaction(Some(Mismatch), None))
      else if outcome.Ok? then PasswordStep(Some(f.password), Reaction(Some(Updated), Some(HomeRoute)))
      else PasswordStep(Some(f.password), Reaction(Some(Toast("Error", Some(outcome.message), true)), None))
  }

  /** The password that reaches the service is the one typed in both fields and long
      enough for sign in to accept it later. */
  lemma SentPasswordIsConfirmed(f: PasswordForm, outcome: Outcome)
    requires UpdatePassword(f, outcome).call.Some?
    ensures var p := UpdatePassword(f, outcome).call.value;
      p == f.password && p == f.confirm && PasswordCheck(p).passes
  {
  }

  /** A short password is reported as short even when the confirmation also differs: the
      length check comes first. */
  lemma ShortBeatsMismatch(f: PasswordForm, outcome: Outcome)
    requires |f.password| < MinPasswordLength && f.password != f.confirm
    ensures UpdatePassword(f, outcome).reaction.notice == Some(ValidationError(ShortPassword))
    ensures UpdatePassword(f, outcome).reaction.notice != Some(Mismatch)
  {
  }

  /** The page only ever navigates after a successful update. */
  lemma NavigatesOnlyOnSuccess(f: PasswordForm, outcome: Outcome)
    ensures UpdatePassword(f, outcome).reaction.navigate.Some? <==>
      UpdatePassword(f, outcome).call.Some? && outcome.Ok?
  {
  }
}
