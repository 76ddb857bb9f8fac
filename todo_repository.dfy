/**
 * The todo access layer: four operations over the todo table, each given the acting
 * user's id. The table is the `rows` field of a store object; every call runs to
 * completion before the next one starts.
 */
module TodoRepository {
  import opened Wrappers
  import opened TodoTable

  class TodoStore {
    /** The todo table, in the store's native row order. */
    var rows: seq<Todo>

    /** The table's primary key holds. */
    ghost predicate Valid()
      reads this
    {
      UniqueIds(rows)
    }

    constructor ()
      ensures Valid() && rows == []
    {
      rows := [];
    }

    /** getTodosByUserId: exactly the rows the user owns, in table order; reads only. */
    function GetTodosByUserId(userId: UserId): (todos: seq<Todo>)
      reads this
      ensures forall t :: t in todos <==> t in rows && t.userId == userId
    {
      FilterMembers(rows, OwnerIs(userId));
      Owned(rows, userId)
    }

    /**
     * createTodo: inserts a row with only the owner and the title. The table's defaults supply the rest: `id`,
     * a fresh key that the caller passes here, `completed = false`, and `createdAt`.
     */
    method CreateTodo(userId: UserId, title: string, id: TodoId, createdAt: Timestamp) returns (created: Todo)
      requires Valid() && FreshId(rows, id)
      modifies this
      ensures Valid()
      ensures created == Todo(id, userId, title, false, createdAt)
      ensures rows == old(rows) + [created]
    {
      created := Todo(id, userId, title, false, createdAt);
      InsertKeepsUniqueIds(rows, created);
      rows := rows + [created];
    }

    /**
     * toggleTodo: fails with "Todo not found", changing nothing, unless a row has both the
     * id and the owner; otherwise negates that row's `completed` and returns the row.
     */
    method ToggleTodo(todoId: TodoId, userId: UserId) returns (r: Result<Todo, RepoError>)
      requires Valid()
      modifies this
      ensures Valid()
      ensures (r, rows) == Toggle(old(rows), todoId, userId)
      ensures r.Failure? <==> forall i :: 0 <= i < |old(rows)| ==> !(old(rows)[i].id == todoId && old(rows)[i].userId == userId)
      ensures r.Failure? ==> r.error == TodoNotFound && rows == old(rows)
      ensures forall k :: 0 <= k < |old(rows)| && old(rows)[k].id == todoId && old(rows)[k].userId == userId ==>
        r == Success(Flip(old(rows)[k])) && rows == old(rows)[k := Flip(old(rows)[k])]
    {
      ghost var before := rows;
      ToggleKeepsUniqueIds(rows, todoId, userId);
      forall k | 0 <= k < |before| && before[k].id == todoId && before[k].userId == userId
        ensures Toggle(before, todoId, userId) == (Success(Flip(before[k])), before[k := Flip(before[k])])
      {
        ToggleOwned(before, todoId, userId, k);
      }
      var found := FirstIndex(rows, IdAndOwner(todoId, userId));
      if found.None? {
        return Failure(TodoNotFound);
      }
      var existing := rows[found.value];
      rows := SetCompletedWhereId(rows, todoId, !existing.completed);
      var returned := Filter(rows, IdIs(todoId));
      FilterMembers(rows, IdIs(todoId));
      assert rows[found.value] in returned;
      r := Success(returned[0]);
    }

    /** deleteTodo: removes the rows with both the id and the owner; never fails. */
    method DeleteTodo(todoId: TodoId, userId: UserId)
      requires Valid()
      modifies this
      ensures Valid()
      ensures rows == Delete(old(rows), todoId, userId)
    {
      DeleteKeepsUniqueIds(rows, todoId, userId);
      rows := Delete(rows, todoId, userId);
    }
  }

  /** One user's todo from creation to deletion. */
  method OwnerLifecycle(store: TodoStore, u: UserId, id: TodoId, now: Timestamp)
    requires store.Valid() && store.rows == []
    modifies store
    ensures store.Valid() && store.rows == []
  {
    var created := store.CreateTodo(u, "Buy milk", id, now);
    assert store.rows == [created];
    FilterOne(created, OwnerIs(u));
    assert store.GetTodosByUserId(u) == [Todo(id, u, "Buy milk", false, now)];
    var toggled := store.ToggleTodo(id, u);
    assert store.rows[0] == Todo(id, u, "Buy milk", true, now);
    assert toggled == Success(store.rows[0]);
    store.DeleteTodo(id, u);
    DeleteOwned([Todo(id, u, "Buy milk", true, now)], id, u, 0);
    assert store.GetTodosByUserId(u) == [];
  }

  /** Another user can neither toggle nor delete a todo, and its owner's list is unchanged. */
  method CrossUserAccess(store: TodoStore, a: UserId, b: UserId, id: TodoId, now: Timestamp)
    requires store.Valid() && store.rows == [] && a != b
    modifies store
    ensures store.Valid() && store.rows == [Todo(id, a, "secret", false, now)]
  {
    var created := store.CreateTodo(a, "secret", id, now);
    var r := store.ToggleTodo(id, b);
    assert r == Failure(TodoNotFound);
    assert store.rows == [created];
    store.DeleteTodo(id, b);
    DeleteUnmatched([created], id, b);
    assert store.rows == [Todo(id, a, "secret", false, now)];
  }
}
