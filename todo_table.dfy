/**
 * The todo table as a sequence of rows in the store's native order, and the effect of
 * each statement the access layer issues against it: the owner-filtered select, the
 * insert, the id-filtered update that toggles `completed`, and the owner-filtered
 * delete. The store class in TodoRepository is specified by these functions.
 */
module TodoTable {
  import opened Wrappers

  type TodoId = string
  type UserId = string
  /** The row's creation time: an opaque value, supplied with the insert. */
  type Timestamp = int

  datatype Todo = Todo(id: TodoId, userId: UserId, title: string, completed: bool, createdAt: Timestamp)

  /** The one failure the access layer raises: an Error with the message "Todo not found". */
  datatype RepoError = TodoNotFound {
    function Message(): string { "Todo not found" }
  }

  /** The table's primary key: no two rows share an id. */
  ghost predicate UniqueIds(rows: seq<Todo>) {
    forall i, j :: 0 <= i < j < |rows| ==> rows[i].id != rows[j].id
  }

  predicate FreshId(rows: seq<Todo>, id: TodoId) {
    forall i :: 0 <= i < |rows| ==> rows[i].id != id
  }

  /** The where-clauses the access layer's statements use. */
  datatype Where =
    | OwnerIs(userId: UserId)                    // the owner's rows
    | IdIs(id: TodoId)                           // the rows with the id
    | IdAndOwner(id: TodoId, userId: UserId)     // the rows with the id and the owner
    | NotIdAndOwner(id: TodoId, userId: UserId)  // the rows a delete with the previous clause keeps

  predicate Selects(w: Where, t: Todo) {
    match w
    case OwnerIs(u) => t.userId == u
    case IdIs(id) => t.id == id
    case IdAndOwner(id, u) => t.id == id && t.userId == u
    case NotIdAndOwner(id, u) => !(t.id == id && t.userId == u)
  }

  /** The rows a where-clause selects, in table order. */
  function Filter(s: seq<Todo>, p: Where): (r: seq<Todo>)
    ensures |r| <= |s|
    ensures forall i :: 0 <= i < |r| ==> Selects(p, r[i])
  {
    if s == [] then [] else if Selects(p, s[0]) then [s[0]] + Filter(s[1..], p) else Filter(s[1..], p)
  }

  /** The selection holds exactly the rows that satisfy the where-clause. */
  lemma {:induction false} FilterMembers(s: seq<Todo>, p: Where)
    ensures forall x :: x in Filter(s, p) <==> x in s && Selects(p, x)
  {
    if s != [] {
      FilterMembers(s[1..], p);
      assert forall x :: x in s <==> x == s[0] || x in s[1..];
    }
  }

  /** The index of the first row a where-clause selects; a select keeps only its first row. */
  function FirstIndex(s: seq<Todo>, p: Where): (r: Option<nat>)
    ensures r.None? <==> forall i :: 0 <= i < |s| ==> !Selects(p, s[i])
    ensures r.Some? ==> r.value < |s| && Selects(p, s[r.value]) && forall j :: 0 <= j < r.value ==> !Selects(p, s[j])
  {
    if s == [] then None
    else if Selects(p, s[0]) then Some(0)
    else
      var r := FirstIndex(s[1..], p);
      if r.None? then None else Some(r.value + 1)
  }

  // Lemmas about filtering.

  /** Filtering distributes over concatenation, so it keeps the rows' relative order. */
  lemma {:induction false} FilterConcat(a: seq<Todo>, b: seq<Todo>, p: Where)
    ensures Filter(a + b, p) == Filter(a, p) + Filter(b, p)
  {
    if a == [] {
      assert a + b == b;
    } else {
      var ab := a + b;
      assert ab[0] == a[0] && ab[1..] == a[1..] + b;
      FilterConcat(a[1..], b, p);
      if Selects(p, a[0]) {
        calc {
          Filter(ab, p);
          [a[0]] + Filter(a[1..] + b, p);
          [a[0]] + (Filter(a[1..], p) + Filter(b, p));
          ([a[0]] + Filter(a[1..], p)) + Filter(b, p);
        }
      }
    }
  }

  lemma FilterOne(x: Todo, p: Where)
    ensures Filter([x], p) == if Selects(p, x) then [x] else []
  {
    assert [x][1..] == [];
  }

  lemma {:induction false} FilterAll(s: seq<Todo>, p: Where)
    requires forall i :: 0 <= i < |s| ==> Selects(p, s[i])
    ensures Filter(s, p) == s
  {
    if s != [] {
      FilterAll(s[1..], p);
    }
  }

  lemma {:induction false} FilterNone(s: seq<Todo>, p: Where)
    requires forall i :: 0 <= i < |s| ==> !Selects(p, s[i])
    ensures Filter(s, p) == []
  {
    if s != [] {
      FilterNone(s[1..], p);
    }
  }

  /** Filtering by `p` and then by a stronger `q` is filtering by `q`. */
  lemma {:induction false} FilterNarrow(s: seq<Todo>, p: Where, q: Where)
    requires forall x :: Selects(q, x) ==> Selects(p, x)
    ensures Filter(Filter(s, p), q) == Filter(s, q)
  {
    if s != [] {
      FilterNarrow(s[1..], p, q);
      FilterOne(s[0], q);
      if Selects(p, s[0]) {
        assert Filter(s, p) == [s[0]] + Filter(s[1..], p);
        FilterConcat([s[0]], Filter(s[1..], p), q);
      } else {
        assert Filter(s, p) == Filter(s[1..], p);
        assert Filter(s, q) == Filter(s[1..], q);
      }
    }
  }

  lemma {:induction false} FilterIdempotent(s: seq<Todo>, p: Where)
    ensures Filter(Filter(s, p), p) == Filter(s, p)
  {
    FilterNarrow(s, p, p);
  }

  /** Replacing a row that `p` rejects by another it rejects leaves the selection as it was. */
  lemma FilterUpdateRejected(s: seq<Todo>, k: nat, v: Todo, p: Where)
    requires k < |s| && !Selects(p, s[k]) && !Selects(p, v)
    ensures Filter(s[k := v], p) == Filter(s, p)
  {
    var t := s[k := v];
    FilterAround(s, k, p);
    FilterAround(t, k, p);
    assert t[..k] == s[..k] && t[k + 1..] == s[k + 1..];
    FilterOne(s[k], p);
    FilterOne(v, p);
  }

  /** Row `k` splits the selection: the rows before it, itself if selected, the rows after it. */
  lemma FilterAround(s: seq<Todo>, k: nat, p: Where)
    requires k < |s|
    ensures Filter(s, p) == Filter(s[..k], p) + Filter([s[k]], p) + Filter(s[k + 1..], p)
  {
    var before, after := s[..k], s[k + 1..];
    var upto := before + [s[k]];
    assert s == upto + after;
    assert Filter(s, p) == Filter(upto, p) + Filter(after, p) by {
      FilterConcat(upto, after, p);
    }
    assert Filter(upto, p) == Filter(before, p) + Filter([s[k]], p) by {
      FilterConcat(before, [s[k]], p);
    }
  }

  lemma FilterAllIn(s: seq<Todo>, lo: nat, hi: nat, p: Where)
    requires lo <= hi <= |s|
    requires forall i :: lo <= i < hi ==> Selects(p, s[i])
    ensures Filter(s[lo..hi], p) == s[lo..hi]
  {
    var t := s[lo..hi];
    assert forall i :: 0 <= i < |t| ==> t[i] == s[lo + i];
    FilterAll(t, p);
  }

  lemma FilterNoneIn(s: seq<Todo>, lo: nat, hi: nat, p: Where)
    requires lo <= hi <= |s|
    requires forall i :: lo <= i < hi ==> !Selects(p, s[i])
    ensures Filter(s[lo..hi], p) == []
  {
    var t := s[lo..hi];
    assert forall i :: 0 <= i < |t| ==> t[i] == s[lo + i];
    FilterNone(t, p);
  }

  /** When `p` selects exactly row `k`, the selection is that row alone. */
  lemma FilterSingle(s: seq<Todo>, k: nat, p: Where)
    requires k < |s| && Selects(p, s[k])
    requires forall i :: 0 <= i < |s| && i != k ==> !Selects(p, s[i])
    ensures Filter(s, p) == [s[k]]
  {
    FilterAround(s, k, p);
    FilterOne(s[k], p);
    FilterNoneIn(s, 0, k, p);
    FilterNoneIn(s, k + 1, |s|, p);
    assert s[0..k] == s[..k] && s[k + 1..|s|] == s[k + 1..];
  }

  /** When `p` selects every row but `k`, the selection is the table without row `k`. */
  lemma FilterAllBut(s: seq<Todo>, k: nat, p: Where)
    requires k < |s| && !Selects(p, s[k])
    requires forall i :: 0 <= i < |s| && i != k ==> Selects(p, s[i])
    ensures Filter(s, p) == s[..k] + s[k + 1..]
  {
    FilterAround(s, k, p);
    FilterOne(s[k], p);
    FilterAllIn(s, 0, k, p);
    FilterAllIn(s, k + 1, |s|, p);
    assert s[0..k] == s[..k];
    assert s[k + 1..|s|] == s[k + 1..];
    assert Filter(s, p) == Filter(s[..k], p) + [] + Filter(s[k + 1..], p);
  }

  /** A selection of a table with a primary key has one too. */
  lemma {:induction false} FilterKeepsUniqueIds(s: seq<Todo>, p: Where)
    requires UniqueIds(s)
    ensures UniqueIds(Filter(s, p))
  {
    if s != [] {
      FilterKeepsUniqueIds(s[1..], p);
      var rest := Filter(s[1..], p);
      FilterMembers(s[1..], p);
      forall x | x in rest ensures x.id != s[0].id {
        var m :| 0 <= m < |s[1..]| && s[1..][m] == x;
        assert s[m + 1] == x;
      }
      var head := if Selects(p, s[0]) then [s[0]] else [];
      var r := head + rest;
      forall i, j | 0 <= i < j < |r| ensures r[i].id != r[j].id {
        if head != [] && i == 0 {
          assert r[j] == rest[j - 1] && r[j] in rest;
        } else {
          assert r[i] == rest[i - |head|] && r[j] == rest[j - |head|];
        }
      }
    }
  }

  // The list: the rows of one owner.

  /** The rows a user owns, in table order. */
  function Owned(rows: seq<Todo>, userId: UserId): (r: seq<Todo>)
    ensures forall t :: t in r <==> t in rows && t.userId == userId
  {
    FilterMembers(rows, OwnerIs(userId));
    Filter(rows, OwnerIs(userId))
  }

  // The insert: the new row goes after the existing ones.

  /** A new row is listed last for its owner and changes no other user's list. */
  lemma Inserted(rows: seq<Todo>, t: Todo, userId: UserId)
    ensures Owned(rows + [t], userId) == Owned(rows, userId) + (if t.userId == userId then [t] else [])
  {
    FilterConcat(rows, [t], OwnerIs(userId));
    assert [t][1..] == [];
  }

  lemma InsertKeepsUniqueIds(rows: seq<Todo>, t: Todo)
    requires UniqueIds(rows) && FreshId(rows, t.id)
    ensures UniqueIds(rows + [t])
  {
  }

  // The toggle.

  function Flip(t: Todo): (r: Todo)
    ensures r.completed != t.completed && SameExceptCompleted(r, t)
  {
    t.(completed := !t.completed)
  }

  /** The toggle's update: sets `completed` on every row with the id, whoever owns it. */
  function SetCompletedWhereId(rows: seq<Todo>, id: TodoId, value: bool): (r: seq<Todo>)
    ensures |r| == |rows|
    ensures forall i :: 0 <= i < |rows| ==>
      SameExceptCompleted(r[i], rows[i]) && r[i].completed == (if rows[i].id == id then value else rows[i].completed)
  {
    seq(|rows|, i requires 0 <= i < |rows| => if rows[i].id == id then rows[i].(completed := value) else rows[i])
  }

  /** Every field but `completed` is as it was. */
  ghost predicate SameExceptCompleted(a: Todo, b: Todo) {
    a.id == b.id && a.userId == b.userId && a.title == b.title && a.createdAt == b.createdAt
  }

  /**
   * toggleTodo as the source issues it: the owner-filtered select; the "Todo not found"
   * failure when it finds nothing; otherwise the id-filtered update that sets `completed`
   * to the negation of the selected row's, returning the first updated row.
   */
  function Toggle(rows: seq<Todo>, id: TodoId, userId: UserId): (res: (Result<Todo, RepoError>, seq<Todo>))
    ensures res.0.Failure? <==> forall i :: 0 <= i < |rows| ==> !(rows[i].id == id && rows[i].userId == userId)
    ensures res.0.Failure? ==> res.0.error == TodoNotFound && res.1 == rows
    ensures |res.1| == |rows| && forall i :: 0 <= i < |rows| ==> SameExceptCompleted(res.1[i], rows[i])
  {
    match FirstIndex(rows, IdAndOwner(id, userId))
    case None => (Failure(TodoNotFound), rows)
    case Some(k) =>
      var updated := SetCompletedWhereId(rows, id, !rows[k].completed);
      var returned := Filter(updated, IdIs(id));
      FilterMembers(updated, IdIs(id));
      assert updated[k] in returned;
      (Success(returned[0]), updated)
  }

  /**
   * With a primary key, the id-only update is safe: toggling row `k`, which matches both
   * the id and the owner, flips that row alone and returns it.
   */
  lemma ToggleOwned(rows: seq<Todo>, id: TodoId, userId: UserId, k: nat)
    requires UniqueIds(rows)
    requires k < |rows| && rows[k].id == id && rows[k].userId == userId
    ensures Toggle(rows, id, userId) == (Success(Flip(rows[k])), rows[k := Flip(rows[k])])
  {
    var f := FirstIndex(rows, IdAndOwner(id, userId));
    assert f == Some(k);
    var updated := SetCompletedWhereId(rows, id, !rows[k].completed);
    assert updated == rows[k := Flip(rows[k])];
    FilterSingle(updated, k, IdIs(id));
  }

  /** Toggling an owned row twice restores the table, and the second call returns the original row. */
  lemma ToggleTwice(rows: seq<Todo>, id: TodoId, userId: UserId, k: nat)
    requires UniqueIds(rows)
    requires k < |rows| && rows[k].id == id && rows[k].userId == userId
    ensures Toggle(Toggle(rows, id, userId).1, id, userId) == (Success(rows[k]), rows)
  {
    ToggleOwned(rows, id, userId, k);
    var once := rows[k := Flip(rows[k])];
    ToggleOwned(once, id, userId, k);
    assert once[k := Flip(once[k])] == rows;
  }

  /**
   * Ownership isolation of toggle: a call made with `userId` returns only a row that
   * `userId` owns, and leaves every other user's rows exactly as they were.
   */
  lemma ToggleIsolation(rows: seq<Todo>, id: TodoId, userId: UserId, other: UserId)
    requires UniqueIds(rows) && other != userId
    ensures Toggle(rows, id, userId).0.Success? ==> Toggle(rows, id, userId).0.value.userId == userId
    ensures Owned(Toggle(rows, id, userId).1, other) == Owned(rows, other)
  {
    var f := FirstIndex(rows, IdAndOwner(id, userId));
    if f.Some? {
      var k := f.value;
      ToggleOwned(rows, id, userId, k);
      FilterUpdateRejected(rows, k, Flip(rows[k]), OwnerIs(other));
    }
  }

  lemma ToggleKeepsUniqueIds(rows: seq<Todo>, id: TodoId, userId: UserId)
    requires UniqueIds(rows)
    ensures UniqueIds(Toggle(rows, id, userId).1)
  {
    var after := Toggle(rows, id, userId).1;
    forall i, j | 0 <= i < j < |after| ensures after[i].id != after[j].id {
      assert SameExceptCompleted(after[i], rows[i]) && SameExceptCompleted(after[j], rows[j]);
    }
  }

  /**
   * Why the primary key matters: were two users' rows to share an id, a toggle by the
   * second user would flip the first user's row too, and return it.
   */
  lemma ToggleWithoutUniqueIds()
    ensures var rows := [Todo("t", "alice", "secret", false, 0), Todo("t", "bob", "mine", false, 0)];
      var (r, after) := Toggle(rows, "t", "bob");
      && after[0] == Todo("t", "alice", "secret", true, 0)
      && r == Success(Todo("t", "alice", "secret", true, 0))
  {
    var rows := [Todo("t", "alice", "secret", false, 0), Todo("t", "bob", "mine", false, 0)];
    assert !Selects(IdAndOwner("t", "bob"), rows[0]);
    assert FirstIndex(rows[1..], IdAndOwner("t", "bob")) == Some(0);
    var updated := SetCompletedWhereId(rows, "t", true);
    assert updated[1..][1..] == [];
    assert Filter(updated, IdIs("t"))[0] == updated[0];
  }

  // The delete: the rows with both the id and the owner go.

  /** The table after the owner-filtered delete. */
  function Delete(rows: seq<Todo>, id: TodoId, userId: UserId): (r: seq<Todo>)
    ensures forall t :: t in r <==> t in rows && !(t.id == id && t.userId == userId)
  {
    FilterMembers(rows, NotIdAndOwner(id, userId));
    Filter(rows, NotIdAndOwner(id, userId))
  }

  /** With a primary key, deleting an owned row `k` removes that row and nothing else. */
  lemma DeleteOwned(rows: seq<Todo>, id: TodoId, userId: UserId, k: nat)
    requires UniqueIds(rows)
    requires k < |rows| && rows[k].id == id && rows[k].userId == userId
    ensures Delete(rows, id, userId) == rows[..k] + rows[k + 1..]
  {
    FilterAllBut(rows, k, NotIdAndOwner(id, userId));
  }

  /** A delete that matches no row, absent or owned by someone else, is a silent no-op. */
  lemma DeleteUnmatched(rows: seq<Todo>, id: TodoId, userId: UserId)
    requires forall i :: 0 <= i < |rows| ==> !(rows[i].id == id && rows[i].userId == userId)
    ensures Delete(rows, id, userId) == rows
  {
    FilterAll(rows, NotIdAndOwner(id, userId));
  }

  /** Repeating a delete changes nothing more. */
  lemma DeleteIdempotent(rows: seq<Todo>, id: TodoId, userId: UserId)
    ensures Delete(Delete(rows, id, userId), id, userId) == Delete(rows, id, userId)
  {
    FilterIdempotent(rows, NotIdAndOwner(id, userId));
  }

  /** Ownership isolation of delete: every other user's rows are exactly as they were. */
  lemma DeleteIsolation(rows: seq<Todo>, id: TodoId, userId: UserId, other: UserId)
    requires other != userId
    ensures Owned(Delete(rows, id, userId), other) == Owned(rows, other)
  {
    FilterNarrow(rows, NotIdAndOwner(id, userId), OwnerIs(other));
  }

  lemma DeleteKeepsUniqueIds(rows: seq<Todo>, id: TodoId, userId: UserId)
    requires UniqueIds(rows)
    ensures UniqueIds(Delete(rows, id, userId))
  {
    FilterKeepsUniqueIds(rows, NotIdAndOwner(id, userId));
  }
}
