/** The schema of the create-todo form: the intent literal and a trimmed title. */
module CreateTodoSchema {
  import opened Wrappers
  import opened Forms
  import opened Zod
  import opened JsString

  const TitleRequired := "タイトルを入力してください"
  const TitleTooLong := "タイトルは100文字以内で入力してください"
  const MaxTitleLength := 100
  /** The title's length rules, checked on the trimmed title. */
  const TitleChecks := [MinLength(1, TitleRequired), MaxLength(MaxTitleLength, TitleTooLong)]

  datatype CreateTodoData = CreateTodoData(intent: string, title: string)

  const IntentIssue := Issue("intent", ExpectedLiteral("create"))
  const TitleTypeIssue := Issue("title", ExpectedString)
  const TitleRequiredIssue := Issue("title", Custom(TitleRequired))
  const TitleTooLongIssue := Issue("title", Custom(TitleTooLong))

  /** The title field: a string, trimmed, then 1 to 100 characters long. */
  function TitleField(title: FormValue): (r: Result<string, seq<Issue>>)
    ensures r == if !title.Str? then Failure([TitleTypeIssue])
      else if Trim(title.s) == [] then Failure([TitleRequiredIssue])
      else if |Trim(title.s)| > MaxTitleLength then Failure([TitleTooLongIssue])
      else Success(Trim(title.s))
  {
    MinMaxField("title", title, true, 1, TitleRequired, MaxTitleLength, TitleTooLong);
    StringField("title", title, true, TitleChecks)
  }

  /** The create-todo schema applied to the `intent` and `title` values of a submission. */
  function Parse(intent: FormValue, title: FormValue): (r: Result<CreateTodoData, seq<Issue>>)
    ensures r.Success? <==> intent == Str("create") && title.Str? && 1 <= |Trim(title.s)| <= MaxTitleLength
    ensures r.Success? ==> r.value == CreateTodoData("create", Trim(title.s))
    ensures r.Success? ==> var t := r.value.title;
      1 <= |t| <= MaxTitleLength && !IsTrimmable(t[0]) && !IsTrimmable(t[|t| - 1])
  {
    var i := LiteralField("intent", intent, "create");
    var t := TitleField(title);
    if i.Success? && t.Success? then Success(CreateTodoData(i.value, t.value))
    else Failure(IssuesOf(i) + IssuesOf(t))
  }

  /** The issues reported are the intent field's followed by the title field's. */
  lemma ReportsByField(intent: FormValue, title: FormValue, r: Result<CreateTodoData, seq<Issue>>)
    requires r == Parse(intent, title)
    ensures forall x :: Reports(r, x) <==>
      x in IssuesOf(LiteralField("intent", intent, "create")) || x in IssuesOf(TitleField(title))
    ensures forall x :: x in IssuesOf(LiteralField("intent", intent, "create")) ==> x == IntentIssue
    ensures forall x :: x in IssuesOf(TitleField(title)) ==> x.path == "title"
  {
    var i := LiteralField("intent", intent, "create");
    var t := TitleField(title);
    assert r.Failure? ==> r.error == IssuesOf(i) + IssuesOf(t);
  }

  /** The intent issue: reported exactly when the intent is not the string "create". */
  lemma IntentIssues(intent: FormValue, title: FormValue, r: Result<CreateTodoData, seq<Issue>>)
    requires r == Parse(intent, title)
    ensures Reports(r, IntentIssue) <==> intent != Str("create")
  {
    ReportsByField(intent, title, r);
    assert "intent" != "title" by { assert "intent"[0] != "title"[0]; }
  }

  /** The title issues: each reported exactly when its rule fails on the trimmed title. */
  lemma TitleIssues(intent: FormValue, title: FormValue, r: Result<CreateTodoData, seq<Issue>>)
    requires r == Parse(intent, title)
    ensures Reports(r, TitleTypeIssue) <==> !title.Str?
    ensures Reports(r, TitleRequiredIssue) <==> title.Str? && Trim(title.s) == []
    ensures Reports(r, TitleTooLongIssue) <==> title.Str? && |Trim(title.s)| > MaxTitleLength
  {
    ReportsByField(intent, title, r);
    assert "intent" != "title" by { assert "intent"[0] != "title"[0]; }
    assert TitleRequired != TitleTooLong by { assert TitleRequired[4] != TitleTooLong[4]; }
    var issues := IssuesOf(TitleField(title));
    if !title.Str? {
      assert issues == [TitleTypeIssue];
    } else if Trim(title.s) == [] {
      assert issues == [TitleRequiredIssue];
    } else if |Trim(title.s)| > MaxTitleLength {
      assert issues == [TitleTooLongIssue];
    } else {
      assert issues == [];
    }
  }

  /** No issue other than the four above is ever reported. */
  lemma OnlyKnownIssues(intent: FormValue, title: FormValue, r: Result<CreateTodoData, seq<Issue>>)
    requires r == Parse(intent, title)
    ensures r.Failure? ==> forall x :: x in r.error ==>
      x == IntentIssue || x == TitleTypeIssue || x == TitleRequiredIssue || x == TitleTooLongIssue
  {
    ReportsByField(intent, title, r);
  }

  /** An accepted title is accepted again unchanged: its trim is itself. */
  lemma {:induction false} ParseStable(intent: FormValue, title: FormValue)
    requires Parse(intent, title).Success?
    ensures var t := Parse(intent, title).value.title;
      Parse(Str("create"), Str(t)) == Parse(intent, title)
  {
    TrimIdempotent(title.s);
  }
}
