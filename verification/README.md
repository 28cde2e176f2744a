# Task manager stores, modelled in Dafny

A model of the two task stores of a small React task manager, and proofs
about them.

- `Todo` (src/Todo.jsx) keeps one flat, ordered list of tasks (`todos`). It
  also keeps a form draft (`todo`) and an edit cursor (`isEditing`, `editId`).
  Its handlers add, update, edit, delete and drag-reorder tasks, search them
  case-insensitively, and map them to and from CSV rows.
- `TodoProvider` (src/TodoContext.js) keeps three lanes, `current`, `pending`
  and `completed`. Its operations add to `current`, delete within a lane,
  merge a patch into every lane, and move a task between lanes.

A task is a JavaScript object, so any key may be missing. The record `Task`
has the keys `Title`, `Description`, `Status`, `DueDate`, `Priority`,
`AssignedTo` and `id`, written in lower camel case. Each key is an `Option`,
where `None` stands for `undefined`. The same record serves as a stored task,
as the form draft, as a parsed CSV row and as an update patch, because the
source uses one object shape for all four.

Files:

- `seqs.dfy`: `Array.prototype.filter` and `Array.prototype.splice` as
  functions over `seq`, with subsequence, permutation and undo facts.
- `text.dfy`: `toLowerCase` (ASCII letters), `includes`, and `trim` (over
  ECMAScript white space and line terminators).
- `tasks.dfy`: the task record, form field names, and JavaScript truthiness.
- `todo.dfy` (module `TodoComponent`): the flat store. The list operations
  are functions. The handlers are methods of class `Todo`, whose invariant
  `Valid()` says that every stored task has a truthy Title and an id.
- `todo_context.dfy` (module `TodoContext`): the lane store. The operations
  are functions over the `Lanes` record, and class `TodoProvider` installs
  their results in its `todos` field.

The two stores are modelled as written and are not reconciled. Ids, which the
source takes from `Date.now().toString()`, are passed in as the parameter
`now`.

## Model

| member | source | states |
|---|---|---|
| Seqs.Filter | src/TodoContext.js:49 | `filter` keeps exactly the elements that pass, draws them from the input, and never grows the list |
| Seqs.FilterCounts | src/TodoContext.js:49 | `filter` keeps every copy of each element that passes and no copy of any other: each passing element occurs in the result exactly as often as in the input |
| Seqs.FilterIsSubsequence | src/Todo.jsx:290 | what `filter` keeps stays in its original relative order |
| Seqs.Splice | src/Todo.jsx:141-142 | `splice` with non-negative arguments clamps its start and removal count; the remaining and removed elements together are the input plus the inserted items |
| Seqs.SpliceUndo | src/Todo.jsx:141-142 | splicing the removed elements back at the same start restores the array |
| Text.Lower | src/Todo.jsx:79-80 | lower-casing keeps the length, maps each character, and leaves no upper-case ASCII letter |
| Text.LowerIdempotent | src/Todo.jsx:79-80 | lower-casing twice is the same as lower-casing once |
| Text.IncludesIffOccurs | src/Todo.jsx:79-80 | `includes` holds exactly when the substring occurs at some index |
| Text.Includes | src/Todo.jsx:79-80 | `includes` only holds for a substring no longer than the string; `IncludesIffOccurs` ties it to occurrence at an index |
| Text.TrimStart | src/Todo.jsx:39 | the result is a suffix that does not start with white space, and everything dropped is white space |
| Text.TrimEnd | src/Todo.jsx:39 | the result is a prefix that does not end in white space, and everything dropped is white space |
| Text.Trim | src/Todo.jsx:39 | `trim` never lengthens the string, and what it returns neither starts nor ends with white space; `TrimEmptyIffBlank` says when it is empty |
| Text.TrimEmptyIffBlank | src/Todo.jsx:39 | `!s.trim()` holds exactly when every character of `s` is white space |
| Tasks.WithField | src/Todo.jsx:33-35 | the named key holds the new value; every other key and the id are unchanged |
| TodoComponent.BlankTitle | src/Todo.jsx:39 | the guard `!todo.Title.trim()` holds exactly when the Title is empty or all white space |
| TodoComponent.Todo.constructor | src/Todo.jsx:7-20 | the initial state is an empty list, sorted by `dueDate` ascending, with no search term, the default draft, and no edit cursor |
| TodoComponent.Todo.HandleInputChange | src/Todo.jsx:33-36 | only the draft changes, and only in the named field |
| TodoComponent.Todo.ResetTodo | src/Todo.jsx:65-69 | the list can still be held; edit mode is left, `editId` becomes null, and the draft is back to its defaults |
| TodoComponent.Todo.HandleAddTodo | src/Todo.jsx:38-52 | a blank Title changes nothing; otherwise the draft with id `now` is appended at the end and the form resets |
| TodoComponent.Todo.HandleUpdateTodo | src/Todo.jsx:54-63 | a blank Title changes nothing; otherwise every task with id `editId` becomes the draft carrying `editId`, and the form resets |
| TodoComponent.Todo.HandleEdit | src/Todo.jsx:71-75 | edit mode is entered, the cursor is the task's id, and the draft is a copy of the task |
| TodoComponent.Todo.DeleteTask | src/Todo.jsx:290 | the list becomes the tasks whose id differs from the deleted card's |
| TodoComponent.Todo.OnDragEnd | src/Todo.jsx:135-146 | a drop with no destination changes nothing; otherwise the two splices move the task at `source` to `destination` |
| TodoComponent.Todo.HandleCsvImport | src/Todo.jsx:117-125 | with no titled row nothing changes; otherwise the list becomes the titled rows, each with id `now` |
| TodoComponent.ApplyEdit | src/Todo.jsx:60 | the update map keeps the length and position of every task, and replaces exactly the tasks whose id is `editId` |
| TodoComponent.ApplyEditIdempotent | src/Todo.jsx:60 | saving the same draft twice gives the same list as saving it once |
| TodoComponent.ApplyEditWithoutTarget | src/Todo.jsx:60 | when no task has the cursor's id, the update changes nothing |
| TodoComponent.Without | src/Todo.jsx:290 | the Delete button keeps only tasks of the list whose id differs from the card's; `WithoutRemovesExactlyId` states the full contract |
| TodoComponent.WithoutRemovesExactlyId | src/Todo.jsx:290 | delete leaves no task with the id, keeps every other task exactly as often as it occurred, and keeps their order |
| TodoComponent.Reordered | src/Todo.jsx:140-142 | a reorder keeps the length and puts the moved task at the destination, or at the last index when the destination is beyond it; `ReorderedIsPermutation` and `ReorderedPlacesMovedTask` state the rest |
| TodoComponent.ReorderedIsPermutation | src/Todo.jsx:140-142 | a reorder has the same length and the same tasks as the input |
| TodoComponent.ReorderedPlacesMovedTask | src/Todo.jsx:140-142 | the moved task sits at the destination index, or at the last index when the destination is beyond it, and the other tasks keep their relative order |
| TodoComponent.ReorderUndo | src/Todo.jsx:140-142 | dragging the moved task back to its old index restores the list |
| TodoComponent.DragSplicesReorder | src/Todo.jsx:141-142 | the removal splice takes out exactly the task at `source`, and the insertion splice yields the reordered list |
| TodoComponent.DragUsesListIndex | src/Todo.jsx:141-142 | drag indices count cards within a lane but are applied to the whole list: with `a` current and `b` pending, dragging `b` (its lane's index 0) behind `a` moves `a` behind `b` instead |
| TodoComponent.FilteredTasks | src/Todo.jsx:77-81 | the search keeps only tasks of the list that match the term; `SearchKeepsExactlyMatches` states the full contract |
| TodoComponent.SearchKeepsExactlyMatches | src/Todo.jsx:77-81 | the search keeps a task exactly when the lower-cased term occurs in its lower-cased Title, or in its lower-cased truthy Description; every matching task is kept as often as it occurs, in list order |
| TodoComponent.SearchEmptyTermKeepsAll | src/Todo.jsx:77-81 | an empty search term keeps every task |
| TodoComponent.SearchIgnoresTermCase | src/Todo.jsx:78-80 | lower-casing the search term first does not change the result |
| TodoComponent.ExportRow | src/Todo.jsx:101-108 | Title and Status are copied as they are; a missing or empty Description, DueDate, Priority or AssignedTo becomes `""` |
| TodoComponent.PrepareCsvData | src/Todo.jsx:100-109 | export produces one row per task, in list order |
| TodoComponent.WithId | src/Todo.jsx:120 | import gives every kept row the id read from the clock, a single reading for all rows, and changes nothing else |
| TodoComponent.WithIdCommutesWithFilter | src/Todo.jsx:118-120 | stamping ids and keeping titled rows can be done in either order |
| TodoComponent.ImportedTasks | src/Todo.jsx:118-120 | an import never has more tasks than parsed rows, and each imported task has a truthy Title and the id `now`, so the list can hold it |
| TodoComponent.ImportKeepsTitledRows | src/Todo.jsx:118-120 | import keeps exactly the rows with a truthy Title, each as often as it occurs, in order, each with id `now`; every imported task can be held by the list |
| TodoComponent.DeletingOneImportedTaskDeletesAll | src/Todo.jsx:120 | imported tasks share one id, so deleting any of them deletes them all |
| TodoComponent.ImportAdmitsBlankTitle | src/Todo.jsx:118 | import keeps a whitespace-only Title that add and update reject |
| TodoComponent.ExportImportRoundTrip | src/Todo.jsx:100-124 | exporting the list and importing the file gives back every task, in order, equal up to empty keys and with the new id |
| TodoContext.WithLane | src/TodoContext.js:47-50 | writing one lane key leaves the other two lanes unchanged |
| TodoContext.Added | src/TodoContext.js:36-40 | add appends the task with the new id to the end of `current`; `pending` and `completed` are unchanged; the total grows by one |
| TodoContext.Deleted | src/TodoContext.js:46-50 | delete only shortens the named lane, and every task left in it was there before and lacks the id; `DeletedRemovesOnlyFromLane` states the full contract |
| TodoContext.DeletedRemovesOnlyFromLane | src/TodoContext.js:46-50 | delete removes every task with the id from the named lane only, keeps every other task of that lane as often as it occurred and in order, and leaves the other lanes unchanged |
| TodoContext.Merge | src/TodoContext.js:63 | every key present in the patch overrides the item's, and every other key is kept |
| TodoContext.MergeIdempotent | src/TodoContext.js:63 | merging the same patch twice is the same as merging it once |
| TodoContext.Patched | src/TodoContext.js:60-80 | a lane map keeps length and positions, and merges the patch into exactly the tasks with the id |
| TodoContext.MapLane | src/TodoContext.js:57-80 | the map callback yields the patched lane and sets `found` exactly when the lane has a task with the id |
| TodoContext.PatchedWithoutMatch | src/TodoContext.js:82-85 | a lane without the id is left unchanged by the update map |
| TodoContext.Updated | src/TodoContext.js:56-86 | an update succeeds exactly when some lane has a task with the id, and then keeps every lane's length |
| TodoContext.UpdatedKeepsLanes | src/TodoContext.js:58-86 | a successful update keeps every lane's length and positions and changes only the tasks with the id |
| TodoContext.PatchedIdempotent | src/TodoContext.js:60-80 | patching a lane twice with a patch that does not rename the task equals patching it once, and the task stays findable |
| TodoContext.UpdatedIdempotent | src/TodoContext.js:56-86 | repeating an update that does not rename the task changes nothing more |
| TodoContext.Find | src/TodoContext.js:92 | `find` returns the first task with the id, or nothing when the lane has none |
| TodoContext.Moved | src/TodoContext.js:91-102 | a move fails exactly when lane `currentStatus` has no task with the id; otherwise the target lane grows by one task, which carries the id and the target's Status |
| TodoContext.MovedFailsIffMissing | src/TodoContext.js:92-96 | a move fails exactly when lane `currentStatus` has no task with the id |
| TodoContext.MovedBetweenLanes | src/TodoContext.js:98-102 | between two lanes, every task with the id leaves the source lane, the first match is appended to the target with Status rewritten, and the third lane is unchanged |
| TodoContext.MovedKeepsTotal | src/TodoContext.js:98-102 | with exactly one task carrying the id, moving it to another lane keeps the total number of tasks |
| TodoContext.MovedWithinLaneDuplicates | src/TodoContext.js:100-101 | when source and target lanes are the same, the unfiltered lane plus the re-statused task wins, so the task appears one more time |
| TodoContext.TodoProvider.constructor | src/TodoContext.js:9-12 | the initial state is three empty lanes, empty filters, `sortBy` `dueDate` and an empty search term; this is also the default loaded at src/TodoContext.js:15-20 |
| TodoContext.TodoProvider.AddTodo | src/TodoContext.js:36-44 | `todos` becomes the `Added` record |
| TodoContext.TodoProvider.DeleteTodo | src/TodoContext.js:46-54 | `todos` becomes the `Deleted` record |
| TodoContext.TodoProvider.UpdateTodo | src/TodoContext.js:56-89 | `found` says whether any lane has the id; if not, the state is unchanged; otherwise every lane is patched |
| TodoContext.TodoProvider.ChangeStatus | src/TodoContext.js:91-107 | `found` says whether lane `currentStatus` has the id; if not, the state is unchanged; otherwise the task is moved as `Moved` describes |

## Left out

- Sorting in `filteredAndSortedTasks` (src/Todo.jsx:84-95) is not modelled. For `Priority` and `Title` the comparator never returns 0, so it is not consistent. For `dueDate` it subtracts `Date` objects and gets NaN for empty dates. The order `Array.prototype.sort` produces with such a comparator depends on the engine. The search filter is modelled on its own.
- Persistence through `localStorage` and `JSON.parse`/`JSON.stringify` is left out (src/Todo.jsx:22-29, src/TodoContext.js:14-34, src/TodoContext.js:109-111). So is the effect scheduling that decides when a save happens. Both are browser I/O.
- CSV text is left out: Papa.parse, the CSVLink writer, and the file input with its error alerts. `HandleCsvImport` starts from the rows the parser delivers. `ExportImportRoundTrip` assumes that the writer renders an absent value as `""` and that the parser returns every column.
- Id generation by `Date.now().toString()` is left out; the id is the parameter `now`. So no model says that a new id is unique.
- WithId: the import's `map` reads `Date.now()` once per row (src/Todo.jsx:120), and the model stamps every row with the single reading `now`. This assumes the whole map runs within one clock millisecond. A large file can cross a tick and give later rows a different id, so `DeletingOneImportedTaskDeletesAll` and the shared-id claims of `ImportedTasks` and `ImportKeepsTitledRows` hold only under that assumption.
- TodoContext.TodoProvider.DeleteTodo and TodoContext.TodoProvider.ChangeStatus take their lanes as the type `Lane`. In the source, `status`, `currentStatus` and `newStatus` are arbitrary strings (src/TodoContext.js:49, 92, 101). A string that names no lane makes `todos[status]` undefined, the call throws a TypeError, and the state stays as it was. The model does not include that error path.
- `alert`, `toast`, JSX rendering, react-beautiful-dnd and src/App.js are left out. They are UI and wiring.
- The `Task` record has only the seven known keys. Extra CSV columns, which the source would carry along through `{ ...task }`, are dropped. A key explicitly set to `undefined` counts as absent.
- Text.Lower: lower-cases only the ASCII letters `A`-`Z`, whereas `toLowerCase` applies full Unicode case mapping.
- `setSearchTerm`, `setSortBy`, `setSortOrder`, `setFilters` and the provider's exposed `setTodos` are plain state setters and are not modelled as operations.
- React batches a handler's state updates. The model applies them in order, which gives the same final state.
- TodoComponent.Todo.OnDragEnd: requires a source index inside the list. The drag library only reports indices of cards it rendered, and no lane holds more cards than the list has tasks. An out-of-range source would make the source insert `undefined`.
- TodoComponent.FilteredTasks requires every task to have a Title, because `toLowerCase` would otherwise throw.
- TodoComponent.Todo.HandleEdit requires the edited task to have a Title, because the form's Title input and the guard of add and update read it as a string.
