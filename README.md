# Todo ownership and mutation contract: a Dafny model

This project models the part of a small React Router todo application that decides
who can see and change which todo:

- **The todo access layer** (`repository.server.ts`) lists, creates, toggles and
  deletes todos. Every call carries the acting user's id. The todo table is modelled
  as a sequence of rows in the store's native order. The select, update and delete
  statements the layer issues are functions on that sequence (module `TodoTable`);
  the insert is the append of the new row. The store itself is the class
  `TodoRepository.TodoStore`: its `rows` field changes in place, and each of its
  methods is proved against those functions.
- **The `/todos` route** (`todos.tsx`):
  - The loader redirects to `/login` when there is no session. Otherwise it returns
    the session user and their todos.
  - The action dispatches a form on its `intent`. `create` takes a title that still
    has characters after trimming. `toggle` and `delete` take a string `todoId`.
    Every repository call gets the session user's id. A toggle of a todo the caller
    does not own rejects with "Todo not found". Every other branch resolves to `null`.
  - `TodosRoute.Dispatch` is the action's decision as a pure function.
    `TodosRoute.Action` carries it out against the store.
- **The form schemas** for create-todo, signup and login. Each one lists the values
  it accepts, the value it outputs, and exactly which issues it reports. Trimming is
  JavaScript's `String.prototype.trim` over the WhiteSpace and LineTerminator code
  points of ECMA-262 (sections 12.2 and 12.3). `FormData.get` returns the value of
  the first entry with the name (a string or a file), or `null` when there is none;
  that is `Forms.Get`.

The toggle is modelled as the code issues it. The select is filtered by id and owner.
The update that follows is filtered by id alone. `TodoTable.ToggleOwned` proves that
with the table's primary key (`UniqueIds`) this flips exactly the owned row.
`TodoTable.ToggleWithoutUniqueIds` shows a table that breaks the key: there, another
user's row is flipped and returned.

The action does not apply the create-todo schema. It skips a title that is missing,
not a string, or blank after trimming, and checks no length, so a title over 100
characters reaches the repository (`TodosRoute.ActionSkipsLengthCap`), although the
create-todo schema limits the title to 100 characters. The model follows the code.
`TodosRoute.SchemaAcceptedIsCreated` shows that every title the schema accepts is
created unchanged.

## Model

| member | source | states |
|---|---|---|
| JsString.Trim | app/features/todo/schemas/create-todo-schema.ts:7 | the trimmed string is no longer than the input and has no trimmable character at either end; it is empty exactly when every character of the input is trimmable |
| JsString.TrimIsSlice | app/routes/todos.tsx:43-44 | the trimmed string is the contiguous slice of the input after its leading trimmable run, and everything cut off before and after it is trimmable |
| JsString.TrimOfTrimmed | app/routes/todos.tsx:43-44 | a string with no trimmable character at either end is its own trim |
| JsString.TrimIdempotent | app/features/todo/schemas/create-todo-schema.ts:7 | trimming twice gives the same string as trimming once |
| Forms.Get | app/routes/todos.tsx:38 | the value is absent exactly when no entry has the name; otherwise it is the value of the first entry with that name (text or file) |
| Zod.StringField | app/features/todo/schemas/create-todo-schema.ts:5-9 | a non-string fails with the type issue alone; a string (trimmed when asked) is accepted exactly when it passes every length check, the output is that string, and a failure carries the checks' issues, at least one |
| Zod.LiteralField | app/features/todo/schemas/create-todo-schema.ts:4 | accepted exactly when the value is the literal string, which is then the output; otherwise the one literal issue |
| Zod.EmailField | app/features/auth/schemas/signup-schema.ts:9 | accepted exactly when the value is a string the e-mail format accepts, output as given; otherwise the one issue with the custom message |
| Zod.CheckIssues | app/features/todo/schemas/create-todo-schema.ts:8-9 | a string raises no issue exactly when it passes every length check |
| Zod.MinMaxField | app/features/todo/schemas/create-todo-schema.ts:5-9 | a string field with a minimum and a maximum fails with the type issue for a non-string, then with the minimum's message when too short, then with the maximum's message when too long; otherwise it outputs the (trimmed) string |
| Zod.MinField | app/features/auth/schemas/login-schema.ts:5 | a string field with only a minimum fails with the type issue or the minimum's message, or outputs the untrimmed string |
| CreateTodoSchema.TitleField | app/features/todo/schemas/create-todo-schema.ts:5-9 | the title is rejected as a non-string, as blank after trimming, or as longer than 100 characters after trimming, in that order; otherwise the output is the trimmed title |
| CreateTodoSchema.Parse | app/features/todo/schemas/create-todo-schema.ts:3-10 | accepted exactly when the intent is the string "create" and the trimmed title has 1 to 100 characters; the output is the trimmed title, which has no edge whitespace |
| CreateTodoSchema.ReportsByField | app/features/todo/schemas/create-todo-schema.ts:3-10 | the reported issues are the intent field's together with the title field's; the intent contributes only the literal issue, and every title issue is on the path "title" |
| CreateTodoSchema.IntentIssues | app/features/todo/schemas/create-todo-schema.ts:4 | the literal issue is reported exactly when the intent is not the string "create" |
| CreateTodoSchema.TitleIssues | app/features/todo/schemas/create-todo-schema.ts:5-9 | the type, required and too-long issues are each reported exactly when the title is not a string, is blank after trimming, or is over 100 characters after trimming |
| CreateTodoSchema.OnlyKnownIssues | app/features/todo/schemas/create-todo-schema.ts:3-10 | no issue other than those four is ever reported |
| CreateTodoSchema.ParseStable | app/features/todo/schemas/create-todo-schema.ts:7 | parsing an accepted title a second time gives the same result |
| SignupSchema.NameField | app/features/auth/schemas/signup-schema.ts:4-8 | the name is accepted exactly when it is a string with 1 to 50 characters after trimming, and the output is the trimmed name; each of its three issues is reported exactly when its rule fails |
| SignupSchema.PasswordField | app/features/auth/schemas/signup-schema.ts:10-14 | the password is accepted exactly when it is a string of 8 to 128 characters, not trimmed; each of its three issues is reported exactly when its rule fails |
| SignupSchema.Parse | app/features/auth/schemas/signup-schema.ts:3-14 | accepted exactly when the name, e-mail and password rules all hold; the output is the trimmed name with the e-mail and password as given |
| SignupSchema.ReportsByField | app/features/auth/schemas/signup-schema.ts:3-14 | each field's issues are reported exactly when that field raises them, and every reported issue comes from one of the three fields |
| SignupSchema.NameIssues | app/features/auth/schemas/signup-schema.ts:4-8 | the name's type, required and too-long issues are each reported exactly when their rule fails |
| SignupSchema.EmailIssues | app/features/auth/schemas/signup-schema.ts:9 | the e-mail issue is reported exactly when the value is not an e-mail string |
| SignupSchema.PasswordIssues | app/features/auth/schemas/signup-schema.ts:10-14 | the password's type, too-short and too-long issues are each reported exactly when their rule fails on the untrimmed password |
| SignupSchema.OnlyKnownIssues | app/features/auth/schemas/signup-schema.ts:3-14 | no issue other than the seven the schema defines is ever reported |
| LoginSchema.Parse | app/features/auth/schemas/login-schema.ts:3-6 | accepted exactly when the e-mail is valid and the password is a non-empty string; each of the three issues is reported exactly when its rule fails, and no other issue is |
| LoginSchema.BlankPasswordAccepted | app/features/auth/schemas/login-schema.ts:5 | the password is not trimmed: three spaces are accepted as given |
| TodoTable.Filter | app/entities/todo/repository.server.ts:6-34 | the where-clause filter of the select and delete statements: no longer than the table, and every row it keeps satisfies the clause |
| TodoTable.Owned | app/entities/todo/repository.server.ts:5-7 | the list query: exactly the rows whose owner is the user |
| TodoTable.SetCompletedWhereId | app/entities/todo/repository.server.ts:24-28 | the toggle's update: the same number of rows, every field but `completed` kept, and `completed` set to the new value on every row with the id, whoever owns it, and unchanged on every other row |
| TodoTable.FilterMembers | app/entities/todo/repository.server.ts:6 | a filtered table holds exactly the rows that satisfy the where-clause |
| TodoTable.FirstIndex | app/entities/todo/repository.server.ts:15-18 | no index exactly when no row is selected; otherwise the index of the first selected row |
| TodoTable.Inserted | app/entities/todo/repository.server.ts:9-12 | after an insert, the new row is listed last for its owner (in the table order the model assumes), and every other user's list is unchanged |
| TodoTable.InsertKeepsUniqueIds | app/entities/todo/repository.server.ts:10 | inserting a row with a fresh id keeps the primary key |
| TodoTable.Toggle | app/entities/todo/repository.server.ts:14-31 | fails with "Todo not found" exactly when no row has both the id and the owner, and then leaves the table as it was; it never changes the number of rows or any field but `completed` |
| TodoTable.ToggleOwned | app/entities/todo/repository.server.ts:24-30 | with unique ids, toggling the owned row k returns that row with `completed` negated, and only row k changes |
| TodoTable.ToggleTwice | app/entities/todo/repository.server.ts:14-31 | toggling an owned row twice restores the table, and the second call returns the original row |
| TodoTable.ToggleIsolation | app/entities/todo/repository.server.ts:15-18 | with unique ids, a toggle returns only a row the caller owns, and every other user's rows stay exactly as they were |
| TodoTable.ToggleKeepsUniqueIds | app/entities/todo/repository.server.ts:24-28 | a toggle keeps the primary key |
| TodoTable.ToggleWithoutUniqueIds | app/entities/todo/repository.server.ts:27 | the update is filtered by id alone: in a table where two users share an id, the second user's toggle flips the first user's row and returns it |
| TodoTable.Delete | app/entities/todo/repository.server.ts:33-35 | the remaining rows are exactly the rows that do not have both the id and the owner |
| TodoTable.DeleteOwned | app/entities/todo/repository.server.ts:34 | with unique ids, deleting the owned row k removes that row and keeps the others in order |
| TodoTable.DeleteUnmatched | app/entities/todo/repository.server.ts:34 | deleting a todo that is absent or owned by someone else changes nothing |
| TodoTable.DeleteIdempotent | app/entities/todo/repository.server.ts:33-35 | deleting twice is the same as deleting once |
| TodoTable.DeleteIsolation | app/entities/todo/repository.server.ts:34 | a delete leaves every other user's rows exactly as they were |
| TodoTable.DeleteKeepsUniqueIds | app/entities/todo/repository.server.ts:33-35 | a delete keeps the primary key |
| TodoRepository.TodoStore.GetTodosByUserId | app/entities/todo/repository.server.ts:5-7 | the list holds exactly the store's rows that the user owns |
| TodoRepository.TodoStore.CreateTodo | app/entities/todo/repository.server.ts:9-12 | the new row has the given owner and title, `completed` false, the fresh id and the timestamp; it goes after the existing rows, and the call returns it |
| TodoRepository.TodoStore.ToggleTodo | app/entities/todo/repository.server.ts:14-31 | the store changes as `Toggle` says; the call fails with "Todo not found", changing nothing, exactly when no row has both the id and the owner; otherwise it flips the owned row alone and returns it |
| TodoRepository.TodoStore.DeleteTodo | app/entities/todo/repository.server.ts:33-35 | the store becomes the table `Delete` describes and keeps its primary key |
| TodoRepository.OwnerLifecycle | app/entities/todo/repository.server.ts:9-35 | starting from an empty store, one owner's create, toggle and delete leave the store empty again |
| TodoRepository.CrossUserAccess | app/entities/todo/repository.server.ts:14-35 | after one user creates a todo, another user's toggle and delete of it leave that single row exactly as created |
| TodosRoute.Loader | app/routes/todos.tsx:14-26 | redirects to "/login" exactly when there is no session; otherwise returns the session user and exactly the rows that user owns |
| TodosRoute.Dispatch | app/routes/todos.tsx:28-64 | redirect exactly when there is no session; every call carries the session user's id; create exactly when the intent is "create" and the title is a non-blank string, with the trimmed title; toggle and delete exactly when their intent holds and `todoId` is a string, with that id |
| TodosRoute.Action | app/routes/todos.tsx:28-65 | for each decision, the store changes as the matching repository call says and nothing else; a toggle that fails rejects with "Todo not found"; every other branch resolves to `null` |
| TodosRoute.SchemaAcceptedIsCreated | app/routes/todos.tsx:41-47 | every submission the create-todo schema accepts leads the action to create the schema's trimmed title |
| TodosRoute.ActionSkipsLengthCap | app/routes/todos.tsx:43-44 | a 101-character title is sent to the repository, although the create-todo schema rejects it |
| TodosRoute.ForeignToggleRejected | app/routes/todos.tsx:48-54 | a toggle submitted for a todo the user does not own fails with "Todo not found" and leaves the table as it was |

## Left out

- The database, its client and the query builder: the table is a sequence of rows; the select, update and delete are functions on it, and the insert is an append. The order in which the database returns rows is modelled as table order, where an insert goes last; the list query has no ordering clause and promises no position, so `TodoTable.Inserted`'s "listed last" holds only in the model.
- Concurrency: each repository call and each action is atomic. A toggle really issues a select and then a separate update, so two concurrent toggles can lose an update; the model does not capture this.
- The authentication library: the session lookup is a parameter (`None` for no session). Its cookies and headers are not modelled. The redirect's HTTP status is not modelled either.
- TodoRepository.TodoStore.CreateTodo: the database generates the id and the timestamp. Here they are parameters, and the caller must pass an id no row has.
- TodosRoute.Action: takes the new todo's id and timestamp as parameters, for the same reason. Database errors other than "Todo not found" are not modelled, and neither is a request body that fails to parse as a form: the action always receives one.
- The page component of `todos.tsx` (lines 67-101), the other routes and the form components: rendering is not part of this model. That includes the form library that runs the create-todo, login and signup schemas: all three are modelled as applied directly to the values `FormData.get` returns, with none of the library's preprocessing in between.
- Zod.EmailField: zod's e-mail pattern is a parameter (`isEmail`). The custom message is taken to cover every issue of the e-mail field.
- Only the issues' path and message are modelled; zod's issue codes and other metadata are not.
- String lengths count Unicode code points. JavaScript counts UTF-16 code units, so the two differ on characters outside the Basic Multilingual Plane.
- `createdAt` is an integer timestamp rather than a date.
- The shared `Todo` type declaration and the test helpers are not part of this model.
