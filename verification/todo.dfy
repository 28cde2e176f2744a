/** The flat task list of the `Todo` component (src/Todo.jsx): one ordered list
    of tasks, a draft the form edits, and an edit cursor. The list operations
    are functions; the handlers are methods of the class `Todo`, whose fields
    are the component's state. */
module TodoComponent {
  import opened Seqs
  import opened Text
  import opened Tasks

  /** The draft the form starts from and is reset to. */
  const DefaultDraft := Task(Some(""), Some(""), Some("current"), Some(""), Some("medium"), Some(""), None)

  /** A task the list can hold: a truthy title and an id. */
  predicate Stored(t: Task)
  {
    Truthy(t.title) && t.id.Some?
  }

  /** `!todo.Title.trim()`: the guard of add and update, which holds exactly when the
      Title is empty or all whitespace. */
  predicate BlankTitle(draft: Task)
    requires draft.title.Some?
    ensures BlankTitle(draft) <==> forall k | 0 <= k < |draft.title.value| :: IsWhitespace(draft.title.value[k])
  {
    TrimEmptyIffBlank(draft.title.value);
    Trim(draft.title.value) == ""
  }

  // ---------------------------------------------------------------- update

  /** `t.id === editId`, where the cursor `editId` is `null` (`None`) or a task's id. */
  predicate IsEditTarget(t: Task, editId: Option<string>)
  {
    editId.Some? && t.id == editId
  }

  /** `todos.map(t => t.id === editId ? { ...draft, id: editId } : t)`. */
  function ApplyEdit(todos: seq<Task>, editId: Option<string>, draft: Task): (r: seq<Task>)
    ensures |r| == |todos|
    ensures forall i | 0 <= i < |todos| ::
      r[i] == if IsEditTarget(todos[i], editId) then draft.(id := editId) else todos[i]
  {
    if todos == [] then []
    else
      [if IsEditTarget(todos[0], editId) then draft.(id := editId) else todos[0]]
      + ApplyEdit(todos[1..], editId, draft)
  }

  /** An edited task keeps the cursor's id, so saving the same draft again changes nothing. */
  lemma ApplyEditIdempotent(todos: seq<Task>, editId: Option<string>, draft: Task)
    ensures ApplyEdit(ApplyEdit(todos, editId, draft), editId, draft) == ApplyEdit(todos, editId, draft)
  {
  }

  /** Without a task carrying the cursor's id the edit changes nothing. */
  lemma ApplyEditWithoutTarget(todos: seq<Task>, editId: Option<string>, draft: Task)
    requires forall t | t in todos :: !IsEditTarget(t, editId)
    ensures ApplyEdit(todos, editId, draft) == todos
  {
  }

  // ---------------------------------------------------------------- delete

  /** `todos.filter(t => t.id !== id)`: the Delete button of a card. */
  function Without(todos: seq<Task>, id: Option<string>): (r: seq<Task>)
    ensures |r| <= |todos|
    ensures forall t | t in r :: t in todos && t.id != id
  {
    Filter(todos, (t: Task) => t.id != id)
  }

  /** Deleting leaves no task with the id, keeps every copy of every other task, and keeps
      their order. */
  lemma WithoutRemovesExactlyId(todos: seq<Task>, id: Option<string>)
    ensures forall t | t in Without(todos, id) :: t in todos && t.id != id
    ensures forall t | t in todos && t.id != id :: t in Without(todos, id)
    ensures forall t: Task | t.id != id :: multiset(Without(todos, id))[t] == multiset(todos)[t]
    ensures IsSubsequence(Without(todos, id), todos)
  {
    FilterCounts(todos, (t: Task) => t.id != id);
    var r := Without(todos, id);
    forall t | t in todos && t.id != id ensures t in r {
      var i :| 0 <= i < |todos| && todos[i] == t;
    }
    FilterIsSubsequence(todos, (t: Task) => t.id != id);
  }

  // ---------------------------------------------------------------- reorder

  /** The list with the task at `from` taken out and put back at `to`,
      a position past the end meaning the end. */
  function Reordered(s: seq<Task>, from: nat, to: nat): (r: seq<Task>)
    requires from < |s|
    ensures |r| == |s| && r[Min(to, |s| - 1)] == s[from]
  {
    var rest := s[..from] + s[from + 1..];
    var at := Min(to, |rest|);
    rest[..at] + [s[from]] + rest[at..]
  }

  /** Reordering moves a task; it neither adds nor loses one. */
  lemma ReorderedIsPermutation(s: seq<Task>, from: nat, to: nat)
    requires from < |s|
    ensures |Reordered(s, from, to)| == |s|
    ensures multiset(Reordered(s, from, to)) == multiset(s)
  {
    var rest := s[..from] + s[from + 1..];
    var at := Min(to, |rest|);
    assert s == s[..from] + [s[from]] + s[from + 1..];
    assert multiset(s) == multiset(rest) + multiset{s[from]};
    assert rest == rest[..at] + rest[at..];
    assert multiset(rest) == multiset(rest[..at]) + multiset(rest[at..]);
  }

  /** The two `splice` calls of `onDragEnd` perform `Reordered`. */
  lemma DragSplicesReorder(s: seq<Task>, from: nat, to: nat)
    requires from < |s|
    ensures var cut := Splice(s, from, 1, []);
      cut.removed == [s[from]] && Splice(cut.rest, to, 0, cut.removed).rest == Reordered(s, from, to)
  {
    var cut := Splice(s, from, 1, []);
    assert cut.removed == s[from..from + 1] == [s[from]];
    assert cut.rest == s[..from] + s[from + 1..];
  }

  /** The moved task lands at the destination index (the last index if beyond it),
      and the other tasks keep their relative order. */
  lemma ReorderedPlacesMovedTask(s: seq<Task>, from: nat, to: nat)
    requires from < |s|
    ensures var r, at := Reordered(s, from, to), Min(to, |s| - 1);
      |r| == |s| && r[at] == s[from] && r[..at] + r[at + 1..] == s[..from] + s[from + 1..]
  {
  }

  /** Dragging the moved task back to where it came from restores the list. */
  lemma ReorderUndo(s: seq<Task>, from: nat, to: nat)
    requires from < |s|
    ensures Reordered(Reordered(s, from, to), Min(to, |s| - 1), from) == s
  {
    var r := Reordered(s, from, to);
    var at := Min(to, |s| - 1);
    ReorderedPlacesMovedTask(s, from, to);
    var rest := s[..from] + s[from + 1..];
    assert r[..at] + r[at + 1..] == rest;
    assert Min(from, |rest|) == from;
    assert rest[..from] + [s[from]] + rest[from..] == s;
  }

  /** The cards of one lane before sorting: the tasks whose Status is the lane's key. */
  function LaneTasks(todos: seq<Task>, status: string): seq<Task>
  {
    Filter(todos, (t: Task) => t.status == Some(status))
  }

  /** A card's drag index counts cards within its lane, but the splices apply it to the
      whole list. With the list `[a, b]`, `a` in "current" and `b` in "pending", dragging
      `b` (index 0 of its lane) to index 1 of the "current" lane, after `a`, moves the task
      at list index 0: `a` is moved behind `b`, and `b` stays where it was. */
  lemma DragUsesListIndex(a: Task, b: Task)
    requires a.status == Some("current") && b.status == Some("pending")
    ensures LaneTasks([a, b], "pending") == [b] && LaneTasks([a, b], "current") == [a]
    ensures Reordered([a, b], 0, 1) == [b, a]
  {
  }

  // ---------------------------------------------------------------- search

  /** A task matches a search term when the lower-cased term occurs in its lower-cased
      Title, or in its Description when that is truthy. */
  predicate MatchesSearch(t: Task, term: string)
  {
    var needle := Lower(term);
    (t.title.Some? && Includes(Lower(t.title.value), needle)) ||
    (Truthy(t.description) && Includes(Lower(t.description.value), needle))
  }

  /** The filter half of `filteredAndSortedTasks`; a task without a Title would make
      `toLowerCase` throw, so every task must have one. */
  function FilteredTasks(todos: seq<Task>, searchTerm: string): (r: seq<Task>)
    requires forall t | t in todos :: t.title.Some?
    ensures |r| <= |todos|
    ensures forall t | t in r :: t in todos && MatchesSearch(t, searchTerm)
  {
    Filter(todos, (t: Task) => MatchesSearch(t, searchTerm))
  }

  /** The search keeps exactly the matching tasks, every copy of each, in their order in
      the list. */
  lemma SearchKeepsExactlyMatches(todos: seq<Task>, searchTerm: string)
    requires forall t | t in todos :: t.title.Some?
    ensures forall t | t in FilteredTasks(todos, searchTerm) :: t in todos && MatchesSearch(t, searchTerm)
    ensures forall t | t in todos && MatchesSearch(t, searchTerm) :: t in FilteredTasks(todos, searchTerm)
    ensures forall t: Task | MatchesSearch(t, searchTerm) ::
      multiset(FilteredTasks(todos, searchTerm))[t] == multiset(todos)[t]
    ensures IsSubsequence(FilteredTasks(todos, searchTerm), todos)
  {
    FilterCounts(todos, (t: Task) => MatchesSearch(t, searchTerm));
    var r := FilteredTasks(todos, searchTerm);
    forall t | t in todos && MatchesSearch(t, searchTerm) ensures t in r {
      var i :| 0 <= i < |todos| && todos[i] == t;
    }
    FilterIsSubsequence(todos, (t: Task) => MatchesSearch(t, searchTerm));
  }

  /** An empty search term keeps every task. */
  lemma SearchEmptyTermKeepsAll(todos: seq<Task>)
    requires forall t | t in todos :: t.title.Some?
    ensures FilteredTasks(todos, "") == todos
  {
    forall t | t in todos ensures MatchesSearch(t, "") {
      IncludesEmpty(Lower(t.title.value));
    }
    FilterKeepsAll(todos, (t: Task) => MatchesSearch(t, ""));
  }

  /** The search ignores the case of the term. */
  lemma SearchIgnoresTermCase(todos: seq<Task>, searchTerm: string)
    requires forall t | t in todos :: t.title.Some?
    ensures FilteredTasks(todos, Lower(searchTerm)) == FilteredTasks(todos, searchTerm)
  {
    LowerIdempotent(searchTerm);
    FilterSamePredicate(todos, (t: Task) => MatchesSearch(t, Lower(searchTerm)), (t: Task) => MatchesSearch(t, searchTerm));
  }

  // ---------------------------------------------------------------- CSV export

  /** One exported CSV row: `Title, Description, DueDate, Priority, Status, AssignedTo`. */
  datatype CsvRecord = CsvRecord(
    title: Option<string>,
    description: string,
    dueDate: string,
    priority: string,
    status: Option<string>,
    assignedTo: string)

  /** The row `prepareCSVData` builds for one task. */
  function ExportRow(t: Task): (r: CsvRecord)
    ensures r.title == t.title && r.status == t.status
    ensures Truthy(t.description) ==> r.description == t.description.value
    ensures !Truthy(t.description) ==> r.description == ""
    ensures Truthy(t.dueDate) ==> r.dueDate == t.dueDate.value
    ensures !Truthy(t.dueDate) ==> r.dueDate == ""
    ensures Truthy(t.priority) ==> r.priority == t.priority.value
    ensures !Truthy(t.priority) ==> r.priority == ""
    ensures Truthy(t.assignedTo) ==> r.assignedTo == t.assignedTo.value
    ensures !Truthy(t.assignedTo) ==> r.assignedTo == ""
  {
    CsvRecord(t.title, OrEmpty(t.description), OrEmpty(t.dueDate), OrEmpty(t.priority),
              t.status, OrEmpty(t.assignedTo))
  }

  /** `prepareCSVData`: one row per task, in list order. */
  function PrepareCsvData(todos: seq<Task>): (rows: seq<CsvRecord>)
    ensures |rows| == |todos|
    ensures forall i | 0 <= i < |todos| :: rows[i] == ExportRow(todos[i])
  {
    if todos == [] then [] else [ExportRow(todos[0])] + PrepareCsvData(todos[1..])
  }

  // ---------------------------------------------------------------- CSV import

  /** `row => row.Title`: a parsed row is kept when its Title is truthy. */
  predicate HasTitle(row: Task)
  {
    Truthy(row.title)
  }

  /** `rows.map(task => ({ ...task, id }))`: every row gets the same id. */
  function WithId(rows: seq<Task>, id: string): (r: seq<Task>)
    ensures |r| == |rows|
    ensures forall i | 0 <= i < |rows| :: r[i] == rows[i].(id := Some(id))
  {
    if rows == [] then [] else [rows[0].(id := Some(id))] + WithId(rows[1..], id)
  }

  /** The list a successful import installs: the titled rows, each given the id `now`. */
  function ImportedTasks(rows: seq<Task>, now: string): (r: seq<Task>)
    ensures |r| <= |rows|
    ensures forall i | 0 <= i < |r| :: Stored(r[i]) && HasId(r[i], now)
  {
    var kept := Filter(rows, HasTitle);
    assert forall i | 0 <= i < |kept| :: kept[i] in kept;
    WithId(kept, now)
  }

  /** Stamping ids and keeping titled rows commute: ids play no part in the filter. */
  lemma {:induction false} WithIdCommutesWithFilter(rows: seq<Task>, id: string)
    ensures WithId(Filter(rows, HasTitle), id) == Filter(WithId(rows, id), HasTitle)
  {
    if rows != [] {
      WithIdCommutesWithFilter(rows[1..], id);
      assert WithId(rows, id)[1..] == WithId(rows[1..], id);
      if HasTitle(rows[0]) {
        assert Filter(rows, HasTitle) == [rows[0]] + Filter(rows[1..], HasTitle);
        assert WithId([rows[0]] + Filter(rows[1..], HasTitle), id)[1..]
          == WithId(Filter(rows[1..], HasTitle), id);
      }
    }
  }

  /** Import keeps exactly the titled rows, each as often as it occurs, in order, each with
      the id `now`; all of them can be held by the list. */
  lemma ImportKeepsTitledRows(rows: seq<Task>, now: string)
    ensures |ImportedTasks(rows, now)| == |Filter(rows, HasTitle)|
    ensures forall t | t in ImportedTasks(rows, now) :: Stored(t) && HasId(t, now)
    ensures forall i | 0 <= i < |rows| && HasTitle(rows[i]) :: rows[i].(id := Some(now)) in ImportedTasks(rows, now)
    ensures forall t: Task | HasTitle(t) :: multiset(ImportedTasks(rows, now))[t] == multiset(WithId(rows, now))[t]
    ensures IsSubsequence(ImportedTasks(rows, now), WithId(rows, now))
  {
    var r := ImportedTasks(rows, now);
    forall i | 0 <= i < |rows| && HasTitle(rows[i]) ensures rows[i].(id := Some(now)) in r {
      assert rows[i] in Filter(rows, HasTitle);
      var j :| 0 <= j < |Filter(rows, HasTitle)| && Filter(rows, HasTitle)[j] == rows[i];
      assert r[j] == rows[i].(id := Some(now));
    }
    WithIdCommutesWithFilter(rows, now);
    FilterCounts(WithId(rows, now), HasTitle);
    FilterIsSubsequence(WithId(rows, now), HasTitle);
  }

  /** All imported tasks share one id, so deleting any of them deletes them all. */
  lemma DeletingOneImportedTaskDeletesAll(rows: seq<Task>, now: string, i: nat)
    requires i < |ImportedTasks(rows, now)|
    ensures Without(ImportedTasks(rows, now), ImportedTasks(rows, now)[i].id) == []
  {
    var r := ImportedTasks(rows, now);
    FilterKeepsNone(r, (t: Task) => t.id != r[i].id);
  }

  /** Import admits a whitespace-only Title that add and update reject. */
  lemma ImportAdmitsBlankTitle(now: string)
    ensures var row := DefaultDraft.(title := Some(" "));
      BlankTitle(row) && ImportedTasks([row], now) == [row.(id := Some(now))]
  {
  }

  // ---------------------------------------------------------------- export, then import

  /** A record written out by the CSV writer and parsed back with a header row:
      every column is present as text, an absent value as the empty string. */
  function ReadBack(r: CsvRecord): Task
  {
    Task(Some(OrEmpty(r.title)), Some(r.description), Some(OrEmpty(r.status)),
         Some(r.dueDate), Some(r.priority), Some(r.assignedTo), None)
  }

  /** A task as it comes back from a CSV file: each absent or empty key holds `""`. */
  function Normalized(t: Task): Task
  {
    Task(Some(OrEmpty(t.title)), Some(OrEmpty(t.description)), Some(OrEmpty(t.status)),
         Some(OrEmpty(t.dueDate)), Some(OrEmpty(t.priority)), Some(OrEmpty(t.assignedTo)), t.id)
  }

  /** Exporting the list and importing the file gives back every task, in order, equal
      to the original up to empty keys and with the new id. */
  lemma ExportImportRoundTrip(todos: seq<Task>, now: string)
    requires forall t | t in todos :: Stored(t)
    ensures var file := PrepareCsvData(todos);
      var back := ImportedTasks(seq(|file|, i requires 0 <= i < |file| => ReadBack(file[i])), now);
      |back| == |todos| &&
      forall i | 0 <= i < |todos| :: back[i] == Normalized(todos[i]).(id := Some(now))
  {
    var file := PrepareCsvData(todos);
    var parsed := seq(|file|, i requires 0 <= i < |file| => ReadBack(file[i]));
    forall row | row in parsed ensures HasTitle(row) {
      var i :| 0 <= i < |parsed| && parsed[i] == row;
      assert todos[i] in todos;
    }
    FilterKeepsAll(parsed, HasTitle);
  }

  // ---------------------------------------------------------------- the component

  /** The state of the `Todo` component. */
  class Todo {
    var todos: seq<Task>
    var sortBy: string
    var sortOrder: string
    var searchTerm: string
    var todo: Task
    var isEditing: bool
    var editId: Option<string>

    /** The draft has a Title, and every task in the list has a truthy Title and an id. */
    ghost predicate Valid()
      reads this
    {
      todo.title.Some? && forall t | t in todos :: Stored(t)
    }

    constructor ()
      ensures Valid()
      ensures todos == [] && sortBy == "dueDate" && sortOrder == "asc" && searchTerm == ""
      ensures todo == DefaultDraft && !isEditing && editId == None
    {
      todos := [];
      sortBy := "dueDate";
      sortOrder := "asc";
      searchTerm := "";
      todo := DefaultDraft;
      isEditing := false;
      editId := None;
    }

    /** `handleInputChange`: the input named `name` now holds `value`. */
    method HandleInputChange(name: Field, value: string)
      requires Valid()
      modifies this`todo
      ensures Valid()
      ensures todo == WithField(old(todo), name, value)
    {
      todo := WithField(todo, name, value);
    }

    /** `resetTodo`: leave edit mode and clear the form. */
    method ResetTodo()
      requires Valid()
      modifies this`todo, this`isEditing, this`editId
      ensures Valid()
      ensures !isEditing && editId == None && todo == DefaultDraft
    {
      isEditing := false;
      editId := None;
      todo := DefaultDraft;
    }

    /** `handleAddTodo`: a draft with a blank Title is refused and nothing changes;
        otherwise the draft, with the id `now`, is appended and the form reset. */
    method HandleAddTodo(now: string) returns (added: bool)
      requires Valid()
      modifies this`todos, this`todo, this`isEditing, this`editId
      ensures Valid()
      ensures added <==> !BlankTitle(old(todo))
      ensures !added ==> todos == old(todos) && todo == old(todo)
                         && isEditing == old(isEditing) && editId == old(editId)
      ensures added ==> todos == old(todos) + [old(todo).(id := Some(now))]
                        && todo == DefaultDraft && !isEditing && editId == None
    {
      if BlankTitle(todo) {
        return false;
      }
      var newTodo := todo.(id := Some(now));
      todos := todos + [newTodo];
      ResetTodo();
      added := true;
    }

    /** `handleUpdateTodo`: a draft with a blank Title is refused and nothing changes;
        otherwise every task with the cursor's id becomes the draft with that id, and
        the form is reset. */
    method HandleUpdateTodo() returns (updated: bool)
      requires Valid()
      modifies this`todos, this`todo, this`isEditing, this`editId
      ensures Valid()
      ensures updated <==> !BlankTitle(old(todo))
      ensures !updated ==> todos == old(todos) && todo == old(todo)
                           && isEditing == old(isEditing) && editId == old(editId)
      ensures updated ==> todos == ApplyEdit(old(todos), old(editId), old(todo))
                          && todo == DefaultDraft && !isEditing && editId == None
    {
      if BlankTitle(todo) {
        return false;
      }
      todos := ApplyEdit(todos, editId, todo);
      ResetTodo();
      updated := true;
    }

    /** `handleEdit`: enter edit mode on `task`, copying it into the form. */
    method HandleEdit(task: Task)
      requires Valid() && task.title.Some?
      modifies this`todo, this`isEditing, this`editId
      ensures Valid()
      ensures isEditing && editId == task.id && todo == task
    {
      isEditing := true;
      editId := task.id;
      todo := task;
    }

    /** The Delete button of the card showing a task with id `id`. */
    method DeleteTask(id: Option<string>)
      requires Valid()
      modifies this`todos
      ensures Valid()
      ensures todos == Without(old(todos), id)
    {
      todos := Without(todos, id);
    }

    /** `onDragEnd`: a drop outside every lane changes nothing; otherwise the task at
        `source` is spliced out of a copy of the list and spliced in at `destination`. */
    method OnDragEnd(source: nat, destination: Option<nat>)
      requires Valid()
      requires destination.Some? ==> source < |todos|
      modifies this`todos
      ensures Valid()
      ensures todos == if destination.None? then old(todos)
                       else Reordered(old(todos), source, destination.value)
    {
      if destination.None? {
        return;
      }
      DragSplicesReorder(todos, source, destination.value);
      ReorderedIsPermutation(todos, source, destination.value);
      var newTodos := todos;
      var cut := Splice(newTodos, source, 1, []);
      var movedTask := cut.removed[0];
      newTodos := cut.rest;
      newTodos := Splice(newTodos, destination.value, 0, [movedTask]).rest;
      // Valid() after the splices: each task of the new list is in its multiset, which
      // ReorderedIsPermutation equates with the old list's.
      assert forall t | t in newTodos :: t in multiset(newTodos);
      todos := newTodos;
    }

    /** The `complete` callback of `handleCSVImport` for the parsed rows: without a
        titled row nothing changes; otherwise the list becomes the titled rows, each
        with the id `now`. */
    method HandleCsvImport(rows: seq<Task>, now: string) returns (imported: nat)
      requires Valid()
      modifies this`todos
      ensures Valid()
      ensures imported == |Filter(rows, HasTitle)|
      ensures todos == if imported == 0 then old(todos) else ImportedTasks(rows, now)
    {
      var validTasks := Filter(rows, HasTitle);
      imported := |validTasks|;
      if imported > 0 {
        ImportKeepsTitledRows(rows, now);
        todos := WithId(validTasks, now);
      }
    }
  }
}
