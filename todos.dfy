/** The todo record and the pure list helpers of the controller in
    src/App.tsx: filtering by status, removal by id, the status toggle and
    the counters. */
module Todos {

  /** One todo as the remote store returns it. */
  datatype Todo = Todo(id: int, title: string, userId: int, completed: bool)

  /** The view selector of the footer. */
  datatype Filter = All | Active | Completed

  /** `filterTodosByStatus`: the todos whose `completed` equals `status`. */
  function FilterByStatus(todos: seq<Todo>, status: bool): (r: seq<Todo>)
    ensures |r| <= |todos|
  {
    if todos == [] then []
    else if todos[0].completed == status then [todos[0]] + FilterByStatus(todos[1..], status)
    else FilterByStatus(todos[1..], status)
  }

  /** `removeTodoById`: the todos whose id differs from `id`. */
  function RemoveById(todos: seq<Todo>, id: int): (r: seq<Todo>)
    ensures |r| <= |todos|
  {
    if todos == [] then []
    else if todos[0].id != id then [todos[0]] + RemoveById(todos[1..], id)
    else RemoveById(todos[1..], id)
  }

  /** The todos whose id is outside `ids`: what a batch of removals leaves. */
  function RemoveIds(todos: seq<Todo>, ids: set<int>): seq<Todo> {
    if todos == [] then []
    else if todos[0].id !in ids then [todos[0]] + RemoveIds(todos[1..], ids)
    else RemoveIds(todos[1..], ids)
  }

  /** The toggle applied to one todo (the callback of the `map` in `changeStatus`). */
  function Flip(todo: Todo, id: int): Todo {
    if todo.id == id then todo.(completed := !todo.completed) else todo
  }

  /** `changeStatus`: flips `completed` on every todo with this id. */
  function ToggleById(todos: seq<Todo>, id: int): (r: seq<Todo>)
    ensures |r| == |todos|
  {
    if todos == [] then [] else [Flip(todos[0], id)] + ToggleById(todos[1..], id)
  }

  /** The counter `reduce`: how many todos are not completed. */
  function ActiveCount(todos: seq<Todo>): (n: nat)
    ensures n <= |todos|
  {
    if todos == [] then 0
    else (if todos[0].completed == false then 1 else 0) + ActiveCount(todos[1..])
  }

  /** `todos.some(todo => todo.completed === status)`. */
  predicate AnyWithStatus(todos: seq<Todo>, status: bool) {
    exists x :: x in todos && x.completed == status
  }

  /** The `reduce` in `handleClearCompleted`: ids of the completed todos, in list order. */
  function CompletedIds(todos: seq<Todo>): (ids: seq<int>)
    ensures |ids| <= |todos|
  {
    if todos == [] then []
    else if todos[0].completed then [todos[0].id] + CompletedIds(todos[1..])
    else CompletedIds(todos[1..])
  }

  /** The list after the removals of `ids` completed one after another. */
  function RemoveAll(todos: seq<Todo>, ids: seq<int>): seq<Todo>
    decreases |ids|
  {
    if ids == [] then todos else RemoveAll(RemoveById(todos, ids[0]), ids[1..])
  }

  /** No two todos share an id, as the remote store guarantees. */
  predicate UniqueIds(todos: seq<Todo>) {
    forall i, j :: 0 <= i < j < |todos| ==> todos[i].id != todos[j].id
  }

  /** `a` is `b` with some elements left out, the rest in the same order. */
  predicate IsSubseq(a: seq<Todo>, b: seq<Todo>)
    decreases |b|
  {
    a == [] || (b != [] && ((a[0] == b[0] && IsSubseq(a[1..], b[1..])) || IsSubseq(a, b[1..])))
  }

  // ---------------------------------------------------------------------
  // Filtering

  /** `filterTodosByStatus` keeps exactly the todos with that status. */
  lemma {:induction false} FilterByStatusMembers(todos: seq<Todo>, status: bool)
    ensures forall x :: x in FilterByStatus(todos, status) <==> x in todos && x.completed == status
  {
    if todos != [] {
      FilterByStatusMembers(todos[1..], status);
      assert forall x :: x in todos <==> x == todos[0] || x in todos[1..];
    }
  }

  /** Filtering distributes over concatenation, so it keeps the original order. */
  lemma {:induction false} FilterByStatusAppend(a: seq<Todo>, b: seq<Todo>, status: bool)
    ensures FilterByStatus(a + b, status) == FilterByStatus(a, status) + FilterByStatus(b, status)
  {
    if a == [] {
      assert a + b == b;
    } else {
      assert (a + b)[0] == a[0];
      assert (a + b)[1..] == a[1..] + b;
      FilterByStatusAppend(a[1..], b, status);
    }
  }

  /** The filtered list is an ordered sub-list of the input. */
  lemma {:induction false} FilterByStatusSubseq(todos: seq<Todo>, status: bool)
    ensures IsSubseq(FilterByStatus(todos, status), todos)
  {
    if todos != [] {
      FilterByStatusSubseq(todos[1..], status);
    }
  }

  /** The Active and Completed views split the list between them. */
  lemma {:induction false} FilterByStatusPartition(todos: seq<Todo>)
    ensures |FilterByStatus(todos, false)| + |FilterByStatus(todos, true)| == |todos|
  {
    if todos != [] {
      FilterByStatusPartition(todos[1..]);
    }
  }

  /** Filtering an already filtered list changes nothing. */
  lemma {:induction false} FilterByStatusIdempotent(todos: seq<Todo>, status: bool)
    ensures FilterByStatus(FilterByStatus(todos, status), status) == FilterByStatus(todos, status)
  {
    if todos != [] {
      FilterByStatusIdempotent(todos[1..], status);
    }
  }

  // ---------------------------------------------------------------------
  // Removal by id

  /** `removeTodoById` keeps exactly the todos with another id. */
  lemma {:induction false} RemoveByIdMembers(todos: seq<Todo>, id: int)
    ensures forall x :: x in RemoveById(todos, id) <==> x in todos && x.id != id
  {
    if todos != [] {
      RemoveByIdMembers(todos[1..], id);
      assert forall x :: x in todos <==> x == todos[0] || x in todos[1..];
    }
  }

  /** Removal distributes over concatenation, so it keeps every other todo,
      each as often as it occurs, in order. */
  lemma {:induction false} RemoveByIdAppend(a: seq<Todo>, b: seq<Todo>, id: int)
    ensures RemoveById(a + b, id) == RemoveById(a, id) + RemoveById(b, id)
  {
    if a == [] {
      assert a + b == b;
    } else {
      assert (a + b)[0] == a[0];
      assert (a + b)[1..] == a[1..] + b;
      RemoveByIdAppend(a[1..], b, id);
    }
  }

  lemma {:induction false} RemoveIdsMembers(todos: seq<Todo>, ids: set<int>)
    ensures forall x :: x in RemoveIds(todos, ids) <==> x in todos && x.id !in ids
  {
    if todos != [] {
      RemoveIdsMembers(todos[1..], ids);
      assert forall x :: x in todos <==> x == todos[0] || x in todos[1..];
    }
  }

  /** Removing an id twice is removing it once: a late duplicate delete
      completion changes nothing. */
  lemma {:induction false} RemoveByIdIdempotent(todos: seq<Todo>, id: int)
    ensures RemoveById(RemoveById(todos, id), id) == RemoveById(todos, id)
  {
    if todos != [] {
      RemoveByIdIdempotent(todos[1..], id);
    }
  }

  /** Removing an id that no todo has leaves the list as it was. */
  lemma {:induction false} RemoveByIdAbsent(todos: seq<Todo>, id: int)
    requires forall x :: x in todos ==> x.id != id
    ensures RemoveById(todos, id) == todos
  {
    if todos != [] {
      assert todos[0] in todos;
      assert forall x :: x in todos[1..] ==> x in todos;
      RemoveByIdAbsent(todos[1..], id);
    }
  }

  /** Removal keeps the remaining todos in their order. */
  lemma {:induction false} RemoveByIdSubseq(todos: seq<Todo>, id: int)
    ensures IsSubseq(RemoveById(todos, id), todos)
  {
    if todos != [] {
      RemoveByIdSubseq(todos[1..], id);
    }
  }

  lemma {:induction false} RemoveIdsEmpty(todos: seq<Todo>)
    ensures RemoveIds(todos, {}) == todos
  {
    if todos != [] {
      RemoveIdsEmpty(todos[1..]);
    }
  }

  lemma {:induction false} RemoveByIdThenIds(todos: seq<Todo>, id: int, ids: set<int>)
    ensures RemoveIds(RemoveById(todos, id), ids) == RemoveIds(todos, ids + {id})
  {
    if todos != [] {
      RemoveByIdThenIds(todos[1..], id, ids);
    }
  }

  /** Removals completed one after another remove exactly the set of their
      ids, whatever the order in which they complete. */
  lemma {:induction false} RemoveAllIsRemoveIds(todos: seq<Todo>, ids: seq<int>)
    ensures RemoveAll(todos, ids) == RemoveIds(todos, set k | k in ids)
    decreases |ids|
  {
    if ids == [] {
      assert (set k | k in ids) == {};
      RemoveIdsEmpty(todos);
    } else {
      RemoveAllIsRemoveIds(RemoveById(todos, ids[0]), ids[1..]);
      RemoveByIdThenIds(todos, ids[0], set k | k in ids[1..]);
      assert (set k | k in ids[1..]) + {ids[0]} == set k | k in ids;
    }
  }

  lemma {:induction false} RemoveIdsOfCompleted(todos: seq<Todo>, ids: set<int>)
    requires forall x :: x in todos ==> (x.id in ids <==> x.completed)
    ensures RemoveIds(todos, ids) == FilterByStatus(todos, false)
  {
    if todos != [] {
      assert todos[0] in todos;
      assert forall x :: x in todos[1..] ==> x in todos;
      RemoveIdsOfCompleted(todos[1..], ids);
    }
  }

  /** Every completed todo's id is among the ids the clear-completed reduce collects. */
  lemma {:induction false} CompletedIdsCover(todos: seq<Todo>)
    ensures forall x :: x in todos && x.completed ==> x.id in CompletedIds(todos)
  {
    if todos != [] {
      CompletedIdsCover(todos[1..]);
      assert forall x :: x in todos ==> x == todos[0] || x in todos[1..];
    }
  }

  lemma {:induction false} CompletedIdsAreIds(todos: seq<Todo>)
    ensures forall k :: k in CompletedIds(todos) ==> exists z :: z in todos && z.id == k
  {
    if todos != [] {
      CompletedIdsAreIds(todos[1..]);
      assert forall z :: z in todos[1..] ==> z in todos;
    }
  }

  /** With unique ids, an active todo's id is not among the completed ids. */
  lemma {:induction false} ActiveIdNotCompleted(todos: seq<Todo>, x: Todo)
    requires UniqueIds(todos) && x in todos && !x.completed
    ensures x.id !in CompletedIds(todos)
  {
    var tail := todos[1..];
    CompletedIdsAreIds(tail);
    if todos[0] == x {
      assert forall z :: z in tail ==> z.id != x.id by {
        forall z | z in tail ensures z.id != x.id {
          var j :| 0 <= j < |tail| && tail[j] == z;
          assert todos[j + 1] == z;
        }
      }
    } else {
      var i :| 0 <= i < |todos| && todos[i] == x;
      assert tail[i - 1] == x;
      ActiveIdNotCompleted(tail, x);
    }
  }

  /** One more completed removal on top of a batch. */
  lemma {:induction false} RemoveAllSnoc(todos: seq<Todo>, ids: seq<int>, id: int)
    ensures RemoveAll(todos, ids + [id]) == RemoveById(RemoveAll(todos, ids), id)
    decreases |ids|
  {
    if ids == [] {
      assert ids + [id] == [id];
    } else {
      assert (ids + [id])[0] == ids[0] && (ids + [id])[1..] == ids[1..] + [id];
      RemoveAllSnoc(RemoveById(todos, ids[0]), ids[1..], id);
    }
  }

  /** Clearing completed todos: when every delete issued for the completed
      ids succeeds, in any order, exactly the active todos remain, in their
      original order. */
  lemma ClearCompletedLeavesActive(todos: seq<Todo>, order: seq<int>)
    requires UniqueIds(todos)
    requires multiset(order) == multiset(CompletedIds(todos))
    ensures RemoveAll(todos, order) == FilterByStatus(todos, false)
  {
    ClearCompletedFiltersView(todos, todos, order);
  }

  /** The same deletes applied to any list drawn from `todos`, such as the
      shown list, leave exactly its active todos, in order. */
  lemma ClearCompletedFiltersView(todos: seq<Todo>, view: seq<Todo>, order: seq<int>)
    requires UniqueIds(todos)
    requires forall x :: x in view ==> x in todos
    requires multiset(order) == multiset(CompletedIds(todos))
    ensures RemoveAll(view, order) == FilterByStatus(view, false)
  {
    var ids := CompletedIds(todos);
    var done := FilterByStatus(todos, true);
    CompletedIdsAreCompletedView(todos);
    FilterByStatusMembers(todos, true);
    RemoveAllIsRemoveIds(view, order);
    var s := set k | k in order;
    forall x | x in view
      ensures x.id in s <==> x.completed
    {
      if x.completed {
        var k :| 0 <= k < |done| && done[k] == x;
        assert ids[k] in multiset(ids);
      } else {
        ActiveIdNotCompleted(todos, x);
        assert x.id !in multiset(ids);
      }
    }
    RemoveIdsOfCompleted(view, s);
  }

  // ---------------------------------------------------------------------
  // Toggle

  /** The toggle keeps length, order, ids, titles and owners, and flips
      `completed` exactly on the todos with the given id. */
  lemma {:induction false} ToggleByIdShape(todos: seq<Todo>, id: int)
    ensures |ToggleById(todos, id)| == |todos|
    ensures forall i :: 0 <= i < |todos| ==>
      var r := ToggleById(todos, id);
      r[i].id == todos[i].id && r[i].title == todos[i].title && r[i].userId == todos[i].userId
    ensures forall i :: 0 <= i < |todos| ==>
      (ToggleById(todos, id)[i].completed != todos[i].completed <==> todos[i].id == id)
  {
    if todos != [] {
      ToggleByIdShape(todos[1..], id);
      var r := ToggleById(todos, id);
      assert forall i :: 1 <= i < |todos| ==> r[i] == ToggleById(todos[1..], id)[i - 1];
    }
  }

  /** Toggling the same id twice restores the list. */
  lemma {:induction false} ToggleByIdTwice(todos: seq<Todo>, id: int)
    ensures ToggleById(ToggleById(todos, id), id) == todos
  {
    if todos != [] {
      ToggleByIdTwice(todos[1..], id);
    }
  }

  // ---------------------------------------------------------------------
  // Counters

  /** The counter `reduce` counts exactly the Active view, and is zero exactly
      when every todo is completed. */
  lemma {:induction false} ActiveCountIsActiveView(todos: seq<Todo>)
    ensures ActiveCount(todos) == |FilterByStatus(todos, false)|
    ensures ActiveCount(todos) == 0 <==> forall x :: x in todos ==> x.completed
  {
    if todos != [] {
      ActiveCountIsActiveView(todos[1..]);
      assert forall x :: x in todos <==> x == todos[0] || x in todos[1..];
    }
  }

  /** The ids `handleClearCompleted` deletes are those of the Completed view, in order. */
  lemma {:induction false} CompletedIdsAreCompletedView(todos: seq<Todo>)
    ensures |CompletedIds(todos)| == |FilterByStatus(todos, true)|
    ensures forall k :: 0 <= k < |CompletedIds(todos)| ==>
      CompletedIds(todos)[k] == FilterByStatus(todos, true)[k].id
  {
    if todos != [] {
      CompletedIdsAreCompletedView(todos[1..]);
    }
  }

  /** The counters of a non-empty list of completed todos: none active, all
      completed, some completed. */
  lemma AllCompletedCounters(todos: seq<Todo>)
    requires todos != [] && forall x :: x in todos ==> x.completed
    ensures ActiveCount(todos) == 0
    ensures !AnyWithStatus(todos, false) && AnyWithStatus(todos, true)
  {
    ActiveCountIsActiveView(todos);
    assert todos[0] in todos;
  }

  /** Removal keeps a list of completed todos completed, and the counters of
      what is left say so. */
  lemma RemoveKeepsAllCompleted(todos: seq<Todo>, id: int)
    requires forall x :: x in todos ==> x.completed
    ensures forall x :: x in RemoveById(todos, id) ==> x.completed
    ensures RemoveById(todos, id) != [] ==>
      ActiveCount(RemoveById(todos, id)) == 0
      && !AnyWithStatus(RemoveById(todos, id), false) && AnyWithStatus(RemoveById(todos, id), true)
  {
    RemoveByIdMembers(todos, id);
    if RemoveById(todos, id) != [] {
      AllCompletedCounters(RemoveById(todos, id));
    }
  }

  /** The derived flags agree with the count: `isAllCompleted` holds exactly
      when the count is zero, and `hasCompleted` exactly when the count is
      below the length. */
  lemma CountersAgree(todos: seq<Todo>)
    ensures !AnyWithStatus(todos, false) <==> ActiveCount(todos) == 0
    ensures AnyWithStatus(todos, true) <==> ActiveCount(todos) < |todos|
  {
    ActiveCountIsActiveView(todos);
    FilterByStatusMembers(todos, true);
    FilterByStatusPartition(todos);
    var done := FilterByStatus(todos, true);
    if |done| > 0 {
      assert done[0] in done;
    }
  }

  // ---------------------------------------------------------------------
  // Ordered sub-lists

  lemma {:induction false} SubseqRefl(a: seq<Todo>)
    ensures IsSubseq(a, a)
  {
    if a != [] {
      SubseqRefl(a[1..]);
    }
  }

  /** Every element of an ordered sub-list is an element of the list. */
  lemma {:induction false} SubseqMembers(a: seq<Todo>, b: seq<Todo>)
    requires IsSubseq(a, b)
    ensures forall x :: x in a ==> x in b
    decreases |b|
  {
    if a != [] {
      if a[0] == b[0] && IsSubseq(a[1..], b[1..]) {
        SubseqMembers(a[1..], b[1..]);
        assert forall x :: x in a ==> x == a[0] || x in a[1..];
      } else {
        SubseqMembers(a, b[1..]);
      }
    }
  }

  /** Appending the same todo to both lists keeps the sub-list relation. */
  lemma {:induction false} SubseqAppend(a: seq<Todo>, b: seq<Todo>, t: Todo)
    requires IsSubseq(a, b)
    ensures IsSubseq(a + [t], b + [t])
    decreases |b|
  {
    if a == [] {
      if b == [] {
        assert IsSubseq([], []);
      } else {
        SubseqAppend(a, b[1..], t);
        assert (b + [t])[1..] == b[1..] + [t];
      }
      assert a + [t] == [t];
    } else {
      assert (b + [t])[0] == b[0] && (b + [t])[1..] == b[1..] + [t];
      assert (a + [t])[0] == a[0] && (a + [t])[1..] == a[1..] + [t];
      if a[0] == b[0] && IsSubseq(a[1..], b[1..]) {
        SubseqAppend(a[1..], b[1..], t);
      } else {
        SubseqAppend(a, b[1..], t);
      }
    }
  }

  /** Toggling both lists keeps the sub-list relation. */
  lemma {:induction false} SubseqToggle(a: seq<Todo>, b: seq<Todo>, id: int)
    requires IsSubseq(a, b)
    ensures IsSubseq(ToggleById(a, id), ToggleById(b, id))
    decreases |b|
  {
    if a != [] {
      if a[0] == b[0] && IsSubseq(a[1..], b[1..]) {
        SubseqToggle(a[1..], b[1..], id);
      } else {
        SubseqToggle(a, b[1..], id);
      }
    }
  }

  /** Removing an id from both lists keeps the sub-list relation. */
  lemma {:induction false} SubseqRemove(a: seq<Todo>, b: seq<Todo>, id: int)
    requires IsSubseq(a, b)
    ensures IsSubseq(RemoveById(a, id), RemoveById(b, id))
    decreases |b|
  {
    if a != [] {
      if a[0] == b[0] && IsSubseq(a[1..], b[1..]) {
        SubseqRemove(a[1..], b[1..], id);
        if a[0].id == id {
          SubseqDropHead(RemoveById(a[1..], id), RemoveById(b[1..], id), b[0]);
        }
      } else {
        SubseqRemove(a, b[1..], id);
        if b[0].id != id {
          SubseqDropHead(RemoveById(a, id), RemoveById(b[1..], id), b[0]);
        }
      }
    }
  }

  lemma SubseqDropHead(a: seq<Todo>, b: seq<Todo>, t: Todo)
    requires IsSubseq(a, b)
    ensures IsSubseq(a, [t] + b)
  {
    assert ([t] + b)[1..] == b;
  }
}
