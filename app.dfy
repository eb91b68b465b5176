/** The todo-list controller of src/App.tsx as an object: its fields are the
    component's state, and each method is one event handler or one completion
    of a request to the remote store, applied atomically to the current state.
    A request's answer is passed in as an `Outcome`. */
module App {
  import opened Todos
  import opened Title

  datatype Option<T> = None | Some(value: T)

  /** How a request to the remote store ended: its answer, or a failure. */
  datatype Outcome<T> = Succeeded(value: T) | Failed

  const LoadError := "Unable to load todos"
  const EmptyTitleError := "Title should not be empty"
  const AddError := "Unable to add a todo"
  const DeleteError := "Unable to delete a todo"

  /** The id of the placeholder shown while an add is in flight. */
  const PlaceholderId := 0

  /** The todo an add posts: placeholder id, active, the user's, with a
      non-empty title. */
  ghost predicate IsPlaceholderFor(t: Todo, userId: int) {
    && t.id == PlaceholderId
    && !t.completed
    && t.userId == userId
    && t.title != []
  }

  class TodoApp {
    /** The user the list belongs to, fixed for the session. */
    const userId: int

    var todos: seq<Todo>
    var filteredTodos: seq<Todo>
    var isAllCompleted: bool
    var hasCompleted: bool
    var errorMessage: Option<string>
    var activeFilter: Filter
    var activeCount: nat
    var inputText: string
    var isAddingTodo: bool
    var tempTodo: Option<Todo>
    var isDeletingTodo: bool
    var todoToDeleteIds: Option<seq<int>>

    /** The three derived counters, as one value. */
    ghost function Counters(): (bool, bool, nat)
      reads this`isAllCompleted, this`hasCompleted, this`activeCount
    {
      (isAllCompleted, hasCompleted, activeCount)
    }

    /** The counters describe `todos` (they are recomputed only when it is non-empty). */
    ghost predicate CountersMatch()
      reads this`todos, this`isAllCompleted, this`hasCompleted, this`activeCount
    {
      todos != [] ==>
        && activeCount == ActiveCount(todos)
        && isAllCompleted == !AnyWithStatus(todos, false)
        && hasCompleted == AnyWithStatus(todos, true)
    }

    /** The shown list keeps the order and the items of `todos`, with some left out. */
    ghost predicate ViewInList()
      reads this`todos, this`filteredTodos
    {
      IsSubseq(filteredTodos, todos)
    }

    /** A placeholder exists exactly while an add is in flight, and has the
        placeholder id, is active, and has a non-empty title. */
    ghost predicate PlaceholderOk()
      reads this`isAddingTodo, this`tempTodo
    {
      && (isAddingTodo <==> tempTodo.Some?)
      && (tempTodo.Some? ==> IsPlaceholderFor(tempTodo.value, userId))
    }

    /** The state invariant every event handler keeps. */
    ghost predicate Valid()
      reads this
    {
      CountersMatch() && ViewInList() && PlaceholderOk()
    }

    /** The initial state of the component. */
    constructor (userId: int)
      ensures Valid()
      ensures this.userId == userId
      ensures todos == [] && filteredTodos == []
      ensures !isAllCompleted && !hasCompleted && activeCount == 0
      ensures errorMessage == None && activeFilter == All && inputText == []
      ensures !isAddingTodo && tempTodo == None
      ensures !isDeletingTodo && todoToDeleteIds == None
    {
      this.userId := userId;
      todos, filteredTodos := [], [];
      isAllCompleted, hasCompleted, activeCount := false, false, 0;
      errorMessage, activeFilter, inputText := None, All, [];
      isAddingTodo, tempTodo := false, None;
      isDeletingTodo, todoToDeleteIds := false, None;
      new;
      SubseqRefl([]);
    }

    /** `ShowError`: the new message replaces any earlier one. */
    method ShowError(message: string)
      modifies this`errorMessage
      ensures errorMessage == Some(message)
      ensures old(Valid()) ==> Valid()
    {
      errorMessage := Some(message);
    }

    /** The notification's dismiss button; the three-second timer does the same. */
    method DismissError()
      modifies this`errorMessage
      ensures errorMessage == None
    {
      errorMessage := None;
    }

    /** The effect that runs whenever `todos` changes. */
    method SyncCounters()
      modifies this`isAllCompleted, this`hasCompleted, this`activeCount
      ensures CountersMatch()
      ensures todos == [] ==> Counters() == old(Counters())
    {
      if |todos| != 0 {
        isAllCompleted := !AnyWithStatus(todos, false);
        hasCompleted := AnyWithStatus(todos, true);
        activeCount := ActiveCount(todos);
      }
    }

    /** Completion of the initial load. */
    method LoadCompleted(outcome: Outcome<seq<Todo>>)
      requires Valid()
      modifies this`todos, this`filteredTodos, this`errorMessage
      modifies this`isAllCompleted, this`hasCompleted, this`activeCount
      ensures Valid()
      ensures outcome.Succeeded? ==>
        todos == outcome.value && filteredTodos == outcome.value && errorMessage == old(errorMessage)
      ensures outcome.Failed? ==>
        todos == old(todos) && filteredTodos == old(filteredTodos) && errorMessage == Some(LoadError)
      ensures todos == [] ==> Counters() == old(Counters())
    {
      match outcome {
        case Succeeded(fetched) =>
          todos := fetched;
          filteredTodos := fetched;
          SubseqRefl(fetched);
          SyncCounters();
        case Failed =>
          ShowError(LoadError);
      }
    }

    /** `handleTodoStatusChange`: the toggle applied to both lists; the view is not re-filtered. */
    method HandleTodoStatusChange(id: int)
      requires Valid()
      modifies this`todos, this`filteredTodos
      modifies this`isAllCompleted, this`hasCompleted, this`activeCount
      ensures Valid()
      ensures todos == ToggleById(old(todos), id)
      ensures filteredTodos == ToggleById(old(filteredTodos), id)
      ensures todos == [] ==> Counters() == old(Counters())
    {
      SubseqToggle(filteredTodos, todos, id);
      filteredTodos := ToggleById(filteredTodos, id);
      todos := ToggleById(todos, id);
      SyncCounters();
    }

    /** `handleFilterAll`. */
    method HandleFilterAll()
      requires Valid()
      modifies this`filteredTodos, this`activeFilter
      ensures Valid()
      ensures filteredTodos == todos && activeFilter == All
    {
      SubseqRefl(todos);
      filteredTodos := todos;
      activeFilter := All;
    }

    /** `handleFilterActive`. */
    method HandleFilterActive()
      requires Valid()
      modifies this`filteredTodos, this`activeFilter
      ensures Valid()
      ensures filteredTodos == FilterByStatus(todos, false) && activeFilter == Active
    {
      FilterByStatusSubseq(todos, false);
      filteredTodos := FilterByStatus(todos, false);
      activeFilter := Active;
    }

    /** `handleFilterCompleted`. */
    method HandleFilterCompleted()
      requires Valid()
      modifies this`filteredTodos, this`activeFilter
      ensures Valid()
      ensures filteredTodos == FilterByStatus(todos, true) && activeFilter == Completed
    {
      FilterByStatusSubseq(todos, true);
      filteredTodos := FilterByStatus(todos, true);
      activeFilter := Completed;
    }

    /** The entry field's `onChange`. */
    method SetInputText(text: string)
      modifies this`inputText
      ensures inputText == text
    {
      inputText := text;
    }

    /** `handleAddTodoOnEnter` up to the request: returns the todo it posts, or
        None when the normalised title is empty and nothing is posted. */
    method HandleAddTodoOnEnter() returns (posted: Option<Todo>)
      requires Valid()
      modifies this`errorMessage, this`isAddingTodo, this`tempTodo
      ensures Valid()
      ensures posted.None? <==> Normalize(old(inputText)) == []
      ensures posted.None? ==>
        && errorMessage == Some(EmptyTitleError)
        && isAddingTodo == old(isAddingTodo) && tempTodo == old(tempTodo)
      ensures posted.Some? ==>
        && posted.value == Todo(PlaceholderId, Normalize(old(inputText)), userId, false)
        && isAddingTodo && tempTodo == posted
        && errorMessage == old(errorMessage)
    {
      var title := Normalize(inputText);
      if title == [] {
        ShowError(EmptyTitleError);
        posted := None;
      } else {
        var placeholder := Todo(PlaceholderId, title, userId, false);
        ShowPlaceholder(placeholder);
        posted := Some(placeholder);
      }
    }

    /** The add's `setIsAddingTodo(true)` and `setTempTodo(newTodo)`. */
    method ShowPlaceholder(placeholder: Todo)
      requires Valid() && IsPlaceholderFor(placeholder, userId)
      modifies this`isAddingTodo, this`tempTodo
      ensures Valid()
      ensures isAddingTodo && tempTodo == Some(placeholder)
    {
      isAddingTodo := true;
      tempTodo := Some(placeholder);
    }

    /** Completion of the add request, with its `.then`, `.catch` and `.finally`. */
    method AddCompleted(outcome: Outcome<Todo>)
      requires Valid()
      modifies this`inputText, this`todos, this`filteredTodos, this`errorMessage
      modifies this`isAllCompleted, this`hasCompleted, this`activeCount
      modifies this`isAddingTodo, this`tempTodo
      ensures Valid()
      ensures !isAddingTodo && tempTodo == None
      ensures outcome.Succeeded? ==>
        && inputText == []
        && todos == old(todos) + [outcome.value]
        && filteredTodos == old(filteredTodos) + [outcome.value]
        && errorMessage == old(errorMessage)
      ensures outcome.Failed? ==>
        && inputText == old(inputText)
        && todos == old(todos) && filteredTodos == old(filteredTodos)
        && Counters() == old(Counters())
        && errorMessage == Some(AddError)
    {
      match outcome {
        case Succeeded(fetched) =>
          inputText := [];
          SubseqAppend(filteredTodos, todos, fetched);
          todos := todos + [fetched];
          filteredTodos := filteredTodos + [fetched];
          SyncCounters();
        case Failed =>
          ShowError(AddError);
      }
      isAddingTodo := false;
      tempTodo := None;
    }

    /** `onDelete` up to the request: raises the shared deleting flag. */
    method OnDelete(id: int)
      modifies this`isDeletingTodo
      ensures isDeletingTodo
    {
      isDeletingTodo := true;
    }

    /** The row's delete button: marks that one id, then deletes it. */
    method DeleteTodo(id: int)
      modifies this`todoToDeleteIds, this`isDeletingTodo
      ensures todoToDeleteIds == Some([id]) && isDeletingTodo
    {
      todoToDeleteIds := Some([id]);
      OnDelete(id);
    }

    /** Completion of one delete request. The flag is lowered whatever other
        deletes are still in flight. */
    method DeleteCompleted(id: int, outcome: Outcome<()>)
      requires Valid()
      modifies this`todos, this`filteredTodos, this`errorMessage, this`isDeletingTodo
      modifies this`isAllCompleted, this`hasCompleted, this`activeCount
      ensures Valid()
      ensures !isDeletingTodo
      ensures outcome.Succeeded? ==>
        && todos == RemoveById(old(todos), id)
        && filteredTodos == RemoveById(old(filteredTodos), id)
        && errorMessage == old(errorMessage)
      ensures outcome.Failed? ==>
        && todos == old(todos) && filteredTodos == old(filteredTodos)
        && Counters() == old(Counters())
        && errorMessage == Some(DeleteError)
      ensures todos == [] ==> Counters() == old(Counters())
    {
      match outcome {
        case Succeeded(_) =>
          SubseqRemove(filteredTodos, todos, id);
          todos := RemoveById(todos, id);
          filteredTodos := RemoveById(filteredTodos, id);
          SyncCounters();
        case Failed =>
          ShowError(DeleteError);
      }
      isDeletingTodo := false;
    }

    /** `handleClearCompleted`: marks the completed ids and issues one delete
        per id; returns the ids deleted, in list order. */
    method HandleClearCompleted() returns (issued: seq<int>)
      modifies this`todoToDeleteIds, this`isDeletingTodo
      ensures issued == CompletedIds(todos)
      ensures todoToDeleteIds == Some(issued)
      ensures isDeletingTodo == (old(isDeletingTodo) || issued != [])
      ensures forall x :: x in todos && x.completed ==> IsBusy(x, false)
    {
      var ids := CompletedIds(todos);
      todoToDeleteIds := Some(ids);
      issued := [];
      for i := 0 to |ids|
        invariant issued == ids[..i]
        invariant todoToDeleteIds == Some(ids)
        invariant isDeletingTodo == (old(isDeletingTodo) || i > 0)
      {
        OnDelete(ids[i]);
        issued := issued + [ids[i]];
      }
      assert ids[..|ids|] == ids;
      CompletedIdsCover(todos);
    }

    /** Successful completions of deletes for `ids`, one after another. */
    method DeletesSucceed(ids: seq<int>)
      requires Valid()
      modifies this`isDeletingTodo, this`todos, this`filteredTodos
      modifies this`errorMessage, this`isAllCompleted, this`hasCompleted, this`activeCount
      ensures Valid()
      ensures todos == RemoveAll(old(todos), ids)
      ensures filteredTodos == RemoveAll(old(filteredTodos), ids)
      ensures ids != [] ==> !isDeletingTodo
      ensures ids == [] ==> isDeletingTodo == old(isDeletingTodo)
      ensures errorMessage == old(errorMessage)
      ensures old(todos) != [] && (forall x :: x in old(todos) ==> x.completed) ==>
        isAllCompleted && hasCompleted && activeCount == 0
      ensures old(todos) == [] ==> Counters() == old(Counters())
    {
      ghost var start, fstart := todos, filteredTodos;
      ghost var allDone := start != [] && forall x :: x in start ==> x.completed;
      if allDone {
        AllCompletedCounters(start);
      }
      for i := 0 to |ids|
        invariant Valid()
        invariant todos == RemoveAll(start, ids[..i])
        invariant filteredTodos == RemoveAll(fstart, ids[..i])
        invariant allDone ==> forall x :: x in todos ==> x.completed
        invariant allDone ==> isAllCompleted && hasCompleted && activeCount == 0
        invariant start == [] ==> todos == [] && Counters() == old(Counters())
        invariant i > 0 ==> !isDeletingTodo
        invariant i == 0 ==> isDeletingTodo == old(isDeletingTodo)
        invariant errorMessage == old(errorMessage)
      {
        if allDone {
          RemoveKeepsAllCompleted(todos, ids[i]);
        }
        DeleteCompleted(ids[i], Succeeded(()));
        RemoveAllSnoc(start, ids[..i], ids[i]);
        RemoveAllSnoc(fstart, ids[..i], ids[i]);
        assert ids[..i + 1] == ids[..i] + [ids[i]];
      }
      assert ids[..|ids|] == ids;
    }

    /** A clear-completed run in which every delete it issues succeeds, the
        completions arriving in list order with no other event between them. */
    method ClearCompletedAllSucceed() returns (issued: seq<int>)
      requires Valid() && UniqueIds(todos)
      modifies this`todoToDeleteIds, this`isDeletingTodo, this`todos, this`filteredTodos
      modifies this`errorMessage, this`isAllCompleted, this`hasCompleted, this`activeCount
      ensures Valid()
      ensures issued == CompletedIds(old(todos))
      ensures todoToDeleteIds == Some(issued)
      ensures todos == FilterByStatus(old(todos), false)
      ensures filteredTodos == FilterByStatus(old(filteredTodos), false)
      ensures !isDeletingTodo <==> (issued != [] || !old(isDeletingTodo))
      ensures errorMessage == old(errorMessage)
      ensures todos == [] ==> Counters() == old(Counters())
    {
      ghost var start, fstart := todos, filteredTodos;
      issued := HandleClearCompleted();
      DeletesSucceed(issued);
      SubseqMembers(fstart, start);
      ClearCompletedFiltersView(start, start, issued);
      ClearCompletedFiltersView(start, fstart, issued);
      if todos == [] && start != [] {
        FilterByStatusMembers(start, false);
        AllCompletedCounters(start);
      }
    }

    /** The row's busy overlay: the placeholder, or a row marked for deletion
        while the shared deleting flag is up. */
    predicate IsBusy(todo: Todo, isTemp: bool)
      reads this
    {
      isTemp || (isDeletingTodo && todoToDeleteIds.Some? && todo.id in todoToDeleteIds.value)
    }
  }

  /** The counters are not reset when the list becomes empty: after the only
      todo, a completed one, is deleted, the list is empty while the toggle-all
      and clear-completed flags still describe the one-item list. */
  method LastDeleteKeepsCounters(userId: int) returns (app: TodoApp)
    ensures app.todos == [] && app.filteredTodos == []
    ensures app.isAllCompleted && app.hasCompleted && app.activeCount == 0
  {
    app := new TodoApp(userId);
    var done := Todo(1, "a", userId, true);
    app.LoadCompleted(Succeeded([done]));
    assert done in app.todos;
    app.DeleteCompleted(1, Succeeded(()));
  }
}
