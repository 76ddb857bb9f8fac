/** The schema of the login form: an e-mail address and a non-empty password. */
module LoginSchema {
  import opened Wrappers
  import opened Forms
  import opened Zod

  const EmailInvalid := "正しいメールアドレスを入力してください"
  const PasswordRequired := "パスワードを入力してください"

  datatype LoginData = LoginData(email: string, password: string)

  const EmailIssue := Issue("email", Custom(EmailInvalid))
  const PasswordTypeIssue := Issue("password", ExpectedString)
  const PasswordRequiredIssue := Issue("password", Custom(PasswordRequired))

  /** The login schema applied to a submission; `isEmail` stands for zod's e-mail format. */
  function Parse(email: FormValue, password: FormValue, isEmail: string -> bool): (r: Result<LoginData, seq<Issue>>)
    ensures r.Success? <==> email.Str? && isEmail(email.s) && password.Str? && |password.s| >= 1
    ensures r.Success? ==> r.value == LoginData(email.s, password.s)
    ensures Reports(r, EmailIssue) <==> !(email.Str? && isEmail(email.s))
    ensures Reports(r, PasswordTypeIssue) <==> !password.Str?
    ensures Reports(r, PasswordRequiredIssue) <==> password == Str("")
    ensures r.Failure? ==> forall x :: x in r.error ==>
      x == EmailIssue || x == PasswordTypeIssue || x == PasswordRequiredIssue
  {
    var e := EmailField("email", email, isEmail, EmailInvalid);
    var p := StringField("password", password, false, [MinLength(1, PasswordRequired)]);
    MinField("password", password, 1, PasswordRequired);
    if e.Success? && p.Success? then Success(LoginData(e.value, p.value))
    else Failure(IssuesOf(e) + IssuesOf(p))
  }

  /** The password is neither trimmed nor bounded above: three spaces are a valid password. */
  lemma BlankPasswordAccepted(email: string, isEmail: string -> bool)
    requires isEmail(email)
    ensures Parse(Str(email), Str("   "), isEmail) == Success(LoginData(email, "   "))
  {
  }
}
