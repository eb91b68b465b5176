# Todo list controller

A model of the state controller of a React todo-list application
(`src/App.tsx`). The component keeps the list of record `todos` and a shown
list `filteredTodos`. The shown list is a separately updated copy, not a view
recomputed from `todos`. Around the two lists the component keeps:

- the selected filter;
- three derived counters: the number of active todos, whether all are completed, and whether any is completed;
- a placeholder todo shown while an add is in flight;
- an "adding" flag;
- one "deleting" flag shared by every delete;
- the ids marked for deletion;
- the error notification.

The project has three modules:

- `Todos` (`todos.dfy`): the todo record and the pure helpers, with lemmas about them. The helpers are filtering by status, removal by id, the status toggle, the active-count `reduce` and the completed-ids `reduce`.
- `Title` (`title.dfy`): title normalisation, `replace(/\s+/g, ' ').trim()`. Whitespace is the set JavaScript's `\s` and `trim` share.
- `App` (`app.dfy`): the class `TodoApp`.
  - Its fields are the component's state.
  - It has one method per event handler and one per completion of a request to the remote store.
  - A request's answer is an `Outcome` argument, either `Succeeded(value)` or `Failed`.
  - The counter effect that React runs after each change of `todos` is the method `SyncCounters`. Every method that assigns `todos` calls it after assigning `todos`.

Every handler keeps the invariant `Valid()`, which has three parts:

- When `todos` is non-empty, the counters describe it.
- `filteredTodos` is an ordered sub-list of `todos`.
- A placeholder exists exactly while an add is in flight, and it has id 0, is active, belongs to the user and has a non-empty title.

The quirks of the source are kept:

- A successful add appends the new todo to the shown list whatever the filter.
- A toggle does not re-filter.
- The counters are left as they were when `todos` becomes empty.
- Any delete completion lowers the shared deleting flag.

The comment above the toggle-all button (src/App.tsx:189) asks for its `active` class only when all todos are completed. The code does not reset the counters when the list empties, so after the last todo, a completed one, is deleted, the button stays active over an empty list. The model follows the code, and `App.LastDeleteKeepsCounters` shows this.

The list helpers are recursive functions. The lemmas in the table below state what they compute.

## Model

| member | source | states |
|---|---|---|
| Todos.FilterByStatusMembers | src/App.tsx:18-20 | a todo is in the filtered list iff it is in the input and its `completed` equals the status |
| Todos.FilterByStatusAppend | src/App.tsx:18-20 | filtering a concatenation is the concatenation of the filtered parts, so the original order is kept |
| Todos.FilterByStatusSubseq | src/App.tsx:18-20 | the filtered list is an ordered sub-list of the input |
| Todos.FilterByStatusPartition | src/App.tsx:18-20 | the Active and Completed views together have as many todos as the list |
| Todos.FilterByStatusIdempotent | src/App.tsx:18-20 | filtering a filtered list by the same status changes nothing |
| Todos.RemoveByIdMembers | src/App.tsx:22-24 | a todo survives the removal iff it was in the list and has another id |
| Todos.RemoveByIdAppend | src/App.tsx:22-24 | removal distributes over concatenation, so every todo with another id is kept as often as it occurs, in order |
| Todos.RemoveByIdIdempotent | src/App.tsx:22-24 | removing an id twice equals removing it once, so a duplicate delete completion changes nothing |
| Todos.RemoveByIdAbsent | src/App.tsx:22-24 | removing an id no todo has returns the list unchanged |
| Todos.RemoveByIdSubseq | src/App.tsx:22-24 | what the removal keeps is an ordered sub-list of the input |
| Todos.RemoveIdsMembers | src/App.tsx:22-24 | a batch removal keeps exactly the todos whose id is outside the batch |
| Todos.RemoveIdsEmpty | src/App.tsx:22-24 | a batch removal of no ids returns the list unchanged |
| Todos.RemoveByIdThenIds | src/App.tsx:22-24 | one removal followed by a batch removal is the batch removal of both |
| Todos.RemoveAllIsRemoveIds | src/App.tsx:151-154 | removals completed one after another remove exactly the set of their ids, whatever their order |
| Todos.RemoveAllSnoc | src/App.tsx:151-154 | one more completed removal applies `removeTodoById` to what the earlier ones left |
| Todos.RemoveIdsOfCompleted | src/App.tsx:22-24 | removing exactly the ids of the completed todos leaves the Active view |
| Todos.CompletedIdsCover | src/App.tsx:162-165 | every completed todo's id is among the collected ids |
| Todos.CompletedIdsAreIds | src/App.tsx:162-165 | every collected id belongs to some todo of the list |
| Todos.CompletedIdsAreCompletedView | src/App.tsx:162-165 | the collected ids are the ids of the Completed view, position by position |
| Todos.ActiveIdNotCompleted | src/App.tsx:162-165 | with unique ids, an active todo's id is not among the collected ids |
| Todos.ClearCompletedLeavesActive | src/App.tsx:161-174 | with unique ids, when the deletes of the collected ids all succeed, in any order, exactly the active todos remain, in order |
| Todos.ClearCompletedFiltersView | src/App.tsx:151-154 | with unique ids, the same successful deletes leave any list drawn from `todos`, such as the shown list, with exactly its active todos, in order |
| Todos.ToggleByIdShape | src/App.tsx:46-55 | the toggle keeps length, order, ids, titles and owners, and changes `completed` exactly on the todos with that id |
| Todos.ToggleByIdTwice | src/App.tsx:46-55 | toggling the same id twice restores the list |
| Todos.ActiveCountIsActiveView | src/App.tsx:66-73 | the counter `reduce` equals the size of the Active view, and is 0 iff every todo is completed |
| Todos.AllCompletedCounters | src/App.tsx:62-76 | for a non-empty list of completed todos the effect computes none active, all completed and some completed |
| Todos.RemoveKeepsAllCompleted | src/App.tsx:22-24 | removal from a list of completed todos leaves completed todos, whose counters say so when any are left |
| Todos.CountersAgree | src/App.tsx:62-76 | "none active" iff the count is 0, and "some completed" iff the count is below the length |
| Todos.SubseqRefl | src/App.tsx:98-101 | a list is an ordered sub-list of itself, so the All view is one |
| Todos.SubseqMembers | src/App.tsx:27-28 | every todo of the shown list is a todo of the list of record |
| Todos.SubseqAppend | src/App.tsx:133-137 | appending the added todo to both lists keeps the shown list an ordered sub-list |
| Todos.SubseqToggle | src/App.tsx:57-60 | toggling both lists keeps the shown list an ordered sub-list |
| Todos.SubseqRemove | src/App.tsx:151-154 | removing an id from both lists keeps the shown list an ordered sub-list |
| Title.TrimIsDrops | src/App.tsx:115 | `trim` equals removing the leading whitespace and then the trailing whitespace |
| Title.NormalizeShape | src/App.tsx:115 | a normalised title has no whitespace at either end, only plain spaces as whitespace, and never two whitespace characters in a row |
| Title.NormalizeIdempotent | src/App.tsx:115 | normalising a normalised title changes nothing |
| Title.NormalizeKeepsText | src/App.tsx:115 | normalisation keeps every non-whitespace character, in order |
| Title.NormalizeEmptyIff | src/App.tsx:115-118 | the normalised title is empty iff the input is all whitespace |
| Title.NormalizeTwoWords | src/App.tsx:115 | two words with any whitespace around and between them normalise to the two words joined by one space |
| Title.CollapseIsCollapsed | src/App.tsx:115 | after `replace(/\s+/g, ' ')` every whitespace is a plain space and no two are adjacent |
| Title.CollapseKeepsText | src/App.tsx:115 | the replace keeps every non-whitespace character, in order |
| Title.CollapseFixesCollapsed | src/App.tsx:115 | the replace leaves unchanged a string whose every whitespace character is a plain space and which has no two whitespace characters in a row |
| Title.TrimKeeps | src/App.tsx:115 | `trim` keeps the text and keeps a collapsed string collapsed |
| Title.CollapseRun | src/App.tsx:115 | a whole run of whitespace becomes one space |
| Title.CollapseWord | src/App.tsx:115 | a word followed by whitespace or the end is copied unchanged |
| App.TodoApp.constructor | src/App.tsx:27-39 | the initial state: empty lists, counters false and 0, no error, filter All, empty input, no placeholder, flags down; the invariant holds |
| App.TodoApp.ShowError | src/App.tsx:41-44 | the new message replaces any earlier one, nothing else changes, and the invariant is kept |
| App.TodoApp.DismissError | src/App.tsx:412 | the dismiss button clears the message |
| App.TodoApp.SyncCounters | src/App.tsx:62-76 | when `todos` is non-empty the counters describe it; when it is empty they keep their values |
| App.TodoApp.LoadCompleted | src/App.tsx:78-89 | success sets both lists to the fetched todos; failure keeps them and shows "Unable to load todos"; the invariant is kept |
| App.TodoApp.HandleTodoStatusChange | src/App.tsx:46-60 | both lists become their toggle by that id, and the view is not re-filtered; the invariant is kept |
| App.TodoApp.HandleFilterAll | src/App.tsx:98-101 | the shown list becomes `todos` and the filter All; nothing else changes |
| App.TodoApp.HandleFilterActive | src/App.tsx:103-106 | the shown list becomes the active todos of the current `todos` and the filter Active; nothing else changes |
| App.TodoApp.HandleFilterCompleted | src/App.tsx:108-111 | the shown list becomes the completed todos of the current `todos` and the filter Completed; nothing else changes |
| App.TodoApp.SetInputText | src/App.tsx:205 | the entry field's text becomes the typed text |
| App.TodoApp.HandleAddTodoOnEnter | src/App.tsx:113-132 | an empty normalised title shows "Title should not be empty" and posts nothing; otherwise it posts, and shows as placeholder, a todo with id 0, the normalised title, the user's id and `completed` false; the lists are not touched |
| App.TodoApp.ShowPlaceholder | src/App.tsx:120-129 | the adding flag goes up and the placeholder is the given todo; the invariant is kept |
| App.TodoApp.AddCompleted | src/App.tsx:133-142 | success clears the input and appends the returned todo to both lists; failure keeps lists and input and shows "Unable to add a todo"; both end with no placeholder and the adding flag down |
| App.TodoApp.OnDelete | src/App.tsx:146-150 | starting a delete raises the shared deleting flag |
| App.TodoApp.DeleteTodo | src/components/TodoItem/TodoItem.tsx:46-53 | the row's delete button marks only that id and starts its delete |
| App.TodoApp.DeleteCompleted | src/App.tsx:151-158 | success removes the id from both lists; failure keeps them and shows "Unable to delete a todo"; either way the shared flag goes down |
| App.TodoApp.HandleClearCompleted | src/App.tsx:161-174 | marks the completed ids in list order and starts one delete per id; every completed todo is then shown busy |
| App.TodoApp.DeletesSucceed | src/App.tsx:151-158 | successful delete completions one after another leave both `todos` and the shown list with those ids removed, keep the invariant and lower the flag; when every todo was completed the counters still say all completed, and on an empty list they are unchanged |
| App.TodoApp.ClearCompletedAllSucceed | src/App.tsx:161-174 | with unique ids, a clear-completed whose deletes all succeed marks the completed ids and leaves exactly the active todos in both `todos` and the shown list, in order; when nothing is left, the counters are those from before |
| App.LastDeleteKeepsCounters | src/App.tsx:62-76 | deleting the last todo, a completed one, leaves an empty list whose "all completed" and "has completed" flags are still true |

## Left out

- Rendering, classnames and the dead `{false && …}` markup: presentation only. Of the row component, only the delete button and the overlay condition are modelled.
- The HTTP client and `USER_ID`: a request's answer is an `Outcome` argument to a completion method, and the user id is a constructor argument.
- The three-second timer that clears the error: it is a clock. `DismissError` is what it does when it fires. A timer from an earlier error can clear a newer one; the model does not capture that.
- Input focus (`addTodoField.current.focus()`): DOM side effect only.
- Scheduling of `Promise.all` and of concurrent requests: each completion is one atomic step applied to the current state, as the `prev => …` setters do. Any interleaving of events is a sequence of method calls.
- The placeholder row's checkbox and delete button: the placeholder row gets neither handler (src/App.tsx:224), so both do nothing. App.TodoApp.DeleteTodo accepts any id, including the placeholder's id 0, so it also describes a click no row can make.
- App.TodoApp.HandleClearCompleted: returns the ids whose deletes it starts; their completions are separate `DeleteCompleted` calls.
- App.TodoApp.ClearCompletedAllSucceed: covers only the run whose completions arrive in list order with no other event between them. `Todos.ClearCompletedLeavesActive` states the result for any completion order.
- App.TodoApp.HandleAddTodoOnEnter: the invariant requires a non-empty title of the placeholder, but not that it is normalised; that fact is `Title.NormalizeIdempotent`.
- Strings are sequences of Unicode scalar values rather than UTF-16 code units. Whitespace outside the Basic Multilingual Plane does not exist in JavaScript's set, so normalisation is unaffected.
