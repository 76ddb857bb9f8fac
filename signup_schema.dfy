/** The schema of the signup form: a trimmed name, an e-mail address, a password. */
module SignupSchema {
  import opened Wrappers
  import opened Forms
  import opened Zod
  import opened JsString

  const NameRequired := "名前を入力してください"
  const NameTooLong := "名前は50文字以内で入力してください"
  const EmailInvalid := "正しいメールアドレスを入力してください"
  const PasswordTooShort := "パスワードは8文字以上で入力してください"
  const PasswordTooLong := "パスワードは128文字以内で入力してください"
  const MaxNameLength := 50
  const MinPasswordLength := 8
  const MaxPasswordLength := 128

  datatype SignupData = SignupData(name: string, email: string, password: string)

  const NameTypeIssue := Issue("name", ExpectedString)
  const NameRequiredIssue := Issue("name", Custom(NameRequired))
  const NameTooLongIssue := Issue("name", Custom(NameTooLong))
  const EmailIssue := Issue("email", Custom(EmailInvalid))
  const PasswordTypeIssue := Issue("password", ExpectedString)
  const PasswordTooShortIssue := Issue("password", Custom(PasswordTooShort))
  const PasswordTooLongIssue := Issue("password", Custom(PasswordTooLong))

  /** The name field: a string, trimmed, then 1 to 50 characters long. */
  function NameField(name: FormValue): (r: Result<string, seq<Issue>>)
    ensures r.Success? <==> name.Str? && 1 <= |Trim(name.s)| <= MaxNameLength
    ensures r.Success? ==> r.value == Trim(name.s)
    ensures r.Failure? ==> r.error != []
    ensures NameTypeIssue in IssuesOf(r) <==> !name.Str?
    ensures NameRequiredIssue in IssuesOf(r) <==> name.Str? && Trim(name.s) == []
    ensures NameTooLongIssue in IssuesOf(r) <==> name.Str? && |Trim(name.s)| > MaxNameLength
    ensures forall x :: x in IssuesOf(r) ==> x in {NameTypeIssue, NameRequiredIssue, NameTooLongIssue}
    ensures forall x :: x in IssuesOf(r) ==> x.path == "name"
  {
    MinMaxField("name", name, true, 1, NameRequired, MaxNameLength, NameTooLong);
    StringField("name", name, true, [MinLength(1, NameRequired), MaxLength(MaxNameLength, NameTooLong)])
  }

  /** The password field: a string of 8 to 128 characters, not trimmed. */
  function PasswordField(password: FormValue): (r: Result<string, seq<Issue>>)
    ensures r.Success? <==> password.Str? && MinPasswordLength <= |password.s| <= MaxPasswordLength
    ensures r.Success? ==> r.value == password.s
    ensures r.Failure? ==> r.error != []
    ensures PasswordTypeIssue in IssuesOf(r) <==> !password.Str?
    ensures PasswordTooShortIssue in IssuesOf(r) <==> password.Str? && |password.s| < MinPasswordLength
    ensures PasswordTooLongIssue in IssuesOf(r) <==> password.Str? && |password.s| > MaxPasswordLength
    ensures forall x :: x in IssuesOf(r) ==> x in {PasswordTypeIssue, PasswordTooShortIssue, PasswordTooLongIssue}
    ensures forall x :: x in IssuesOf(r) ==> x.path == "password"
  {
    MinMaxField("password", password, false, MinPasswordLength, PasswordTooShort, MaxPasswordLength, PasswordTooLong);
    StringField("password", password, false,
      [MinLength(MinPasswordLength, PasswordTooShort), MaxLength(MaxPasswordLength, PasswordTooLong)])
  }

  /** The signup schema applied to a submission; `isEmail` stands for zod's e-mail format. */
  function Parse(name: FormValue, email: FormValue, password: FormValue, isEmail: string -> bool)
    : (r: Result<SignupData, seq<Issue>>)
    ensures r.Success? <==>
      && name.Str? && 1 <= |Trim(name.s)| <= MaxNameLength
      && email.Str? && isEmail(email.s)
      && password.Str? && MinPasswordLength <= |password.s| <= MaxPasswordLength
    ensures r.Success? ==> r.value == SignupData(Trim(name.s), email.s, password.s)
  {
    var n := NameField(name);
    var e := EmailField("email", email, isEmail, EmailInvalid);
    var p := PasswordField(password);
    if n.Success? && e.Success? && p.Success? then Success(SignupData(n.value, e.value, p.value))
    else Failure(IssuesOf(n) + IssuesOf(e) + IssuesOf(p))
  }

  /** An object schema reports, for each field, exactly the issues that field raises. */
  lemma ReportsByField(name: FormValue, email: FormValue, password: FormValue, isEmail: string -> bool,
                       r: Result<SignupData, seq<Issue>>)
    requires r == Parse(name, email, password, isEmail)
    ensures forall x: Issue :: x.path == "name" ==> (Reports(r, x) <==> x in IssuesOf(NameField(name)))
    ensures forall x: Issue :: x.path == "email" ==> (Reports(r, x) <==> x in IssuesOf(EmailField("email", email, isEmail, EmailInvalid)))
    ensures forall x: Issue :: x.path == "password" ==> (Reports(r, x) <==> x in IssuesOf(PasswordField(password)))
    ensures r.Failure? ==> forall x :: x in r.error ==>
      x in IssuesOf(NameField(name)) || x in IssuesOf(EmailField("email", email, isEmail, EmailInvalid))
      || x in IssuesOf(PasswordField(password))
  {
    var n := NameField(name);
    var e := EmailField("email", email, isEmail, EmailInvalid);
    var p := PasswordField(password);
    var all := IssuesOf(n) + IssuesOf(e) + IssuesOf(p);
    assert r == if all == [] then Success(SignupData(n.value, e.value, p.value)) else Failure(all);
    assert forall x :: Reports(r, x) <==> x in IssuesOf(n) || x in IssuesOf(e) || x in IssuesOf(p);
    assert IssuesOf(e) == if email.Str? && isEmail(email.s) then [] else [EmailIssue];
  }

  /** The name issues: each reported exactly when its constraint fails. */
  lemma NameIssues(name: FormValue, email: FormValue, password: FormValue, isEmail: string -> bool,
                   r: Result<SignupData, seq<Issue>>)
    requires r == Parse(name, email, password, isEmail)
    ensures Reports(r, NameTypeIssue) <==> !name.Str?
    ensures Reports(r, NameRequiredIssue) <==> name.Str? && Trim(name.s) == []
    ensures Reports(r, NameTooLongIssue) <==> name.Str? && |Trim(name.s)| > MaxNameLength
  {
    ReportsByField(name, email, password, isEmail, r);
  }

  /** The e-mail issue: reported exactly when the value is not an e-mail string. */
  lemma EmailIssues(name: FormValue, email: FormValue, password: FormValue, isEmail: string -> bool,
                    r: Result<SignupData, seq<Issue>>)
    requires r == Parse(name, email, password, isEmail)
    ensures Reports(r, EmailIssue) <==> !(email.Str? && isEmail(email.s))
  {
    ReportsByField(name, email, password, isEmail, r);
  }

  /** The password issues: each reported exactly when its bound fails; no trim is applied. */
  lemma PasswordIssues(name: FormValue, email: FormValue, password: FormValue, isEmail: string -> bool,
                       r: Result<SignupData, seq<Issue>>)
    requires r == Parse(name, email, password, isEmail)
    ensures Reports(r, PasswordTypeIssue) <==> !password.Str?
    ensures Reports(r, PasswordTooShortIssue) <==> password.Str? && |password.s| < MinPasswordLength
    ensures Reports(r, PasswordTooLongIssue) <==> password.Str? && |password.s| > MaxPasswordLength
  {
    ReportsByField(name, email, password, isEmail, r);
  }

  /** No issue other than the seven above is ever reported. */
  lemma OnlyKnownIssues(name: FormValue, email: FormValue, password: FormValue, isEmail: string -> bool,
                        r: Result<SignupData, seq<Issue>>)
    requires r == Parse(name, email, password, isEmail)
    ensures r.Failure? ==> forall x :: x in r.error ==>
      x in {NameTypeIssue, NameRequiredIssue, NameTooLongIssue, EmailIssue,
            PasswordTypeIssue, PasswordTooShortIssue, PasswordTooLongIssue}
  {
    ReportsByField(name, email, password, isEmail, r);
  }
}
