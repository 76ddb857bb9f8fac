/**
 * The `/todos` route: the loader that lists the signed-in user's todos and the action
 * that dispatches a submitted form on its `intent` to one repository call. The session
 * lookup is a parameter: `None` when the request carries no valid session.
 */
module TodosRoute {
  import opened Wrappers
  import opened Forms
  import opened JsString
  import opened TodoTable
  import opened TodoRepository
  import CreateTodoSchema

  /** The session's user: only `id` is used to scope data access. */
  datatype User = User(id: UserId, name: string, email: string)

  const LoginPath := "/login"

  /** What a handler resolves to: a redirect, `null`, or the loader's data. */
  datatype Response = Redirect(location: string) | Null | Data(todos: seq<Todo>, user: User)

  /** A handler either returns a response or rejects with the repository's error. */
  datatype Outcome = Returned(response: Response) | Threw(error: RepoError)

  /** The loader: redirect without a session, otherwise the session user and their todos. */
  function Loader(store: TodoStore, session: Option<User>): (r: Response)
    reads store
    ensures session.None? <==> r == Redirect(LoginPath)
    ensures session.Some? ==> r.Data? && r.user == session.value
    ensures session.Some? ==> forall t :: t in r.todos <==> t in store.rows && t.userId == session.value.id
  {
    if session.None? then Redirect(LoginPath)
    else Data(store.GetTodosByUserId(session.value.id), session.value)
  }

  /** The repository call an action makes; `userId` is always the caller's. */
  datatype RepoCall =
    | CreateCall(userId: UserId, title: string)
    | ToggleCall(todoId: TodoId, userId: UserId)
    | DeleteCall(todoId: TodoId, userId: UserId)

  /** The action's decision, before any data access. */
  datatype Plan = RedirectToLogin | Invoke(call: RepoCall) | Skip

  /**
   * Which repository call a submission leads to. `intent` is compared with strict
   * equality; the create branch requires a string title that is non-blank once trimmed
   * and passes the trimmed title on; toggle and delete require a string `todoId`.
   */
  function Dispatch(session: Option<User>, form: seq<Entry>): (p: Plan)
    ensures p == RedirectToLogin <==> session.None?
    ensures p.Invoke? ==> p.call.userId == session.value.id
    ensures p.Invoke? && p.call.CreateCall? <==>
      session.Some? && Get(form, "intent") == Str("create") && Get(form, "title").Str? && Trim(Get(form, "title").s) != []
    ensures p.Invoke? && p.call.CreateCall? ==> p.call.title == Trim(Get(form, "title").s)
    ensures p.Invoke? && p.call.ToggleCall? <==>
      session.Some? && Get(form, "intent") == Str("toggle") && Get(form, "todoId").Str?
    ensures p.Invoke? && p.call.DeleteCall? <==>
      session.Some? && Get(form, "intent") == Str("delete") && Get(form, "todoId").Str?
    ensures p.Invoke? && !p.call.CreateCall? ==> p.call.todoId == Get(form, "todoId").s
  {
    if session.None? then RedirectToLogin
    else
      var userId := session.value.id;
      var intent := Get(form, "intent");
      if intent == Str("create") then
        var title := Get(form, "title");
        if title.Str? && Trim(title.s) != [] then Invoke(CreateCall(userId, Trim(title.s))) else Skip
      else if intent == Str("toggle") then
        var todoId := Get(form, "todoId");
        if todoId.Str? then Invoke(ToggleCall(todoId.s, userId)) else Skip
      else if intent == Str("delete") then
        var todoId := Get(form, "todoId");
        if todoId.Str? then Invoke(DeleteCall(todoId.s, userId)) else Skip
      else Skip
  }

  /**
   * The action against the store: it makes the repository call `Dispatch` decides on.
   * A new todo takes `newId` and `now` as the table's defaults would. A toggle of a todo the caller does not own rejects with
   * "Todo not found"; every other branch resolves to `null`.
   */
  method Action(store: TodoStore, session: Option<User>, form: seq<Entry>, newId: TodoId, now: Timestamp)
    returns (out: Outcome)
    requires store.Valid() && FreshId(store.rows, newId)
    modifies store
    ensures store.Valid()
    ensures match Dispatch(session, form)
      case RedirectToLogin => out == Returned(Redirect(LoginPath)) && store.rows == old(store.rows)
      case Skip => out == Returned(Null) && store.rows == old(store.rows)
      case Invoke(CreateCall(u, title)) =>
        out == Returned(Null) && store.rows == old(store.rows) + [Todo(newId, u, title, false, now)]
      case Invoke(ToggleCall(id, u)) =>
        store.rows == Toggle(old(store.rows), id, u).1 &&
        out == (if Toggle(old(store.rows), id, u).0.Failure? then Threw(TodoNotFound) else Returned(Null))
      case Invoke(DeleteCall(id, u)) => out == Returned(Null) && store.rows == Delete(old(store.rows), id, u)
  {
    match Dispatch(session, form)
    case RedirectToLogin =>
      out := Returned(Redirect(LoginPath));
    case Skip =>
      out := Returned(Null);
    case Invoke(CreateCall(userId, title)) =>
      var _ := store.CreateTodo(userId, title, newId, now);
      out := Returned(Null);
    case Invoke(ToggleCall(todoId, userId)) =>
      var r := store.ToggleTodo(todoId, userId);
      out := if r.Failure? then Threw(r.error) else Returned(Null);
    case Invoke(DeleteCall(todoId, userId)) =>
      store.DeleteTodo(todoId, userId);
      out := Returned(Null);
  }

  /** Every title the create-todo schema accepts leads the action to create that title. */
  lemma SchemaAcceptedIsCreated(user: User, form: seq<Entry>)
    requires CreateTodoSchema.Parse(Get(form, "intent"), Get(form, "title")).Success?
    ensures Dispatch(Some(user), form) ==
      Invoke(CreateCall(user.id, CreateTodoSchema.Parse(Get(form, "intent"), Get(form, "title")).value.title))
  {
  }

  /** The action does not apply the 100-character cap: a 101-character title is created. */
  lemma ActionSkipsLengthCap(user: User)
    ensures var title := seq(101, _ => 'a');
      var form := [Entry("intent", TextEntry("create")), Entry("title", TextEntry(title))];
      Dispatch(Some(user), form) == Invoke(CreateCall(user.id, title)) &&
      CreateTodoSchema.Parse(Get(form, "intent"), Get(form, "title")).Failure?
  {
    var title := seq(101, _ => 'a');
    var form := [Entry("intent", TextEntry("create")), Entry("title", TextEntry(title))];
    assert "intent" != "title" by { assert "intent"[0] != "title"[0]; }
    assert Get(form, "intent") == Str("create");
    assert Get(form[1..], "title") == Str(title);
    assert Get(form, "title") == Str(title);
    assert !IsTrimmable(title[0]) && !IsTrimmable(title[|title| - 1]);
    TrimOfTrimmed(title);
    assert |Trim(title)| > CreateTodoSchema.MaxTitleLength;
  }

  /** A toggle on another user's todo rejects and leaves the table unchanged. */
  lemma ForeignToggleRejected(rows: seq<Todo>, user: User, form: seq<Entry>)
    requires Dispatch(Some(user), form).Invoke? && Dispatch(Some(user), form).call.ToggleCall?
    requires forall t :: t in rows && t.id == Get(form, "todoId").s ==> t.userId != user.id
    ensures var c := Dispatch(Some(user), form).call;
      Toggle(rows, c.todoId, c.userId) == (Failure(TodoNotFound), rows)
  {
  }
}
