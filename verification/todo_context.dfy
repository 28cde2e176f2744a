/** The lane-keyed store of `TodoProvider` (src/TodoContext.js): three ordered
    lists of tasks, one per status lane. Each operation builds the next lane
    record as a function of the current one; the provider's methods install it. */
module TodoContext {
  import opened Seqs
  import opened Tasks

  datatype Lane = Current | Pending | Completed

  /** The lane's key in the record, which is also the Status a task moved there gets. */
  function Key(lane: Lane): string
  {
    match lane
    case Current => "current"
    case Pending => "pending"
    case Completed => "completed"
  }

  /** The provider's `todos`: `{ current, pending, completed }`. */
  datatype Lanes = Lanes(current: seq<Task>, pending: seq<Task>, completed: seq<Task>)

  /** `{ current: [], pending: [], completed: [] }`. */
  const NoLanes := Lanes([], [], [])

  /** `todos[lane]`. */
  function LaneOf(s: Lanes, lane: Lane): seq<Task>
  {
    match lane
    case Current => s.current
    case Pending => s.pending
    case Completed => s.completed
  }

  /** `{ ...s, [lane]: tasks }`: the lane holds `tasks`, the other two are kept. */
  function WithLane(s: Lanes, lane: Lane, tasks: seq<Task>): (r: Lanes)
    ensures LaneOf(r, lane) == tasks
    ensures forall other: Lane | other != lane :: LaneOf(r, other) == LaneOf(s, other)
  {
    match lane
    case Current => s.(current := tasks)
    case Pending => s.(pending := tasks)
    case Completed => s.(completed := tasks)
  }

  /** The number of tasks in all three lanes. */
  function Total(s: Lanes): nat
  {
    |s.current| + |s.pending| + |s.completed|
  }

  /** Some task in `lane` has the id. */
  predicate Holds(lane: seq<Task>, id: string)
  {
    exists t | t in lane :: HasId(t, id)
  }

  /** `(t: Task) => t.id === id`. */
  function IdIs(id: string): Task -> bool
  {
    (t: Task) => HasId(t, id)
  }

  /** `(t: Task) => t.id !== id`. */
  function IdIsNot(id: string): Task -> bool
  {
    (t: Task) => !HasId(t, id)
  }

  // ---------------------------------------------------------------- addTodo

  /** `addTodo`: the task, with the id `now`, is appended to `current`. */
  function Added(s: Lanes, todo: Task, now: string): (r: Lanes)
    ensures Total(r) == Total(s) + 1 && |r.current| == |s.current| + 1
    ensures r.current[..|s.current|] == s.current
    ensures r.current[|s.current|] == todo.(id := Some(now)) && HasId(r.current[|s.current|], now)
    ensures r.pending == s.pending && r.completed == s.completed
  {
    s.(current := s.current + [todo.(id := Some(now))])
  }

  // ---------------------------------------------------------------- deleteTodo

  /** `deleteTodo(id, status)`: the lane `status` without the tasks that have the id. */
  function Deleted(s: Lanes, id: string, status: Lane): (r: Lanes)
    ensures |LaneOf(r, status)| <= |LaneOf(s, status)|
    ensures forall t | t in LaneOf(r, status) :: t in LaneOf(s, status) && !HasId(t, id)
  {
    WithLane(s, status, Filter(LaneOf(s, status), IdIsNot(id)))
  }

  /** Deleting removes every task with the id from that lane only, keeps every copy of the
      lane's other tasks in order, and leaves the other two lanes as they were. */
  lemma DeletedRemovesOnlyFromLane(s: Lanes, id: string, status: Lane)
    ensures var r := Deleted(s, id, status);
      !Holds(LaneOf(r, status), id) &&
      (forall t | t in LaneOf(s, status) && !HasId(t, id) :: t in LaneOf(r, status)) &&
      (forall t: Task | !HasId(t, id) :: multiset(LaneOf(r, status))[t] == multiset(LaneOf(s, status))[t]) &&
      IsSubsequence(LaneOf(r, status), LaneOf(s, status)) &&
      forall other: Lane | other != status :: LaneOf(r, other) == LaneOf(s, other)
  {
    var lane := LaneOf(s, status);
    FilterCounts(lane, IdIsNot(id));
    forall t | t in lane && !HasId(t, id) ensures t in LaneOf(Deleted(s, id, status), status) {
      var i :| 0 <= i < |lane| && lane[i] == t;
      assert IdIsNot(id)(lane[i]);
    }
    FilterIsSubsequence(lane, IdIsNot(id));
  }

  // ---------------------------------------------------------------- updateTodo

  /** `{ ...item, ...patch }`: every key the patch has overrides the item's. */
  function Merge(item: Task, patch: Task): (r: Task)
    ensures forall f: Field :: Get(r, f) == if Get(patch, f).Some? then Get(patch, f) else Get(item, f)
    ensures r.id == if patch.id.Some? then patch.id else item.id
  {
    Task(
      if patch.title.Some? then patch.title else item.title,
      if patch.description.Some? then patch.description else item.description,
      if patch.status.Some? then patch.status else item.status,
      if patch.dueDate.Some? then patch.dueDate else item.dueDate,
      if patch.priority.Some? then patch.priority else item.priority,
      if patch.assignedTo.Some? then patch.assignedTo else item.assignedTo,
      if patch.id.Some? then patch.id else item.id)
  }

  /** Merging the same patch twice is merging it once. */
  lemma MergeIdempotent(item: Task, patch: Task)
    ensures Merge(Merge(item, patch), patch) == Merge(item, patch)
  {
  }

  /** One lane's `map` in `updateTodo`: every task with the id gets the patch merged in. */
  function Patched(lane: seq<Task>, id: string, patch: Task): (r: seq<Task>)
    ensures |r| == |lane|
    ensures forall i | 0 <= i < |lane| ::
      r[i] == if HasId(lane[i], id) then Merge(lane[i], patch) else lane[i]
  {
    if lane == [] then []
    else [if HasId(lane[0], id) then Merge(lane[0], patch) else lane[0]] + Patched(lane[1..], id, patch)
  }

  /** The `map` callback run over one lane: the patched lane, and whether the callback
      met a task with the id (it sets `found`). */
  method MapLane(lane: seq<Task>, id: string, patch: Task) returns (r: seq<Task>, found: bool)
    ensures r == Patched(lane, id, patch)
    ensures found <==> Holds(lane, id)
  {
    r := [];
    found := false;
    var i := 0;
    while i < |lane|
      invariant 0 <= i <= |lane|
      invariant |r| == i
      invariant forall k | 0 <= k < i :: r[k] == if HasId(lane[k], id) then Merge(lane[k], patch) else lane[k]
      invariant found <==> exists k | 0 <= k < i :: HasId(lane[k], id)
    {
      var item := lane[i];
      if HasId(item, id) {
        found := true;
        r := r + [Merge(item, patch)];
      } else {
        r := r + [item];
      }
      i := i + 1;
    }
    if found {
      var k :| 0 <= k < i && HasId(lane[k], id);
      assert lane[k] in lane;
    }
  }

  /** `updateTodo(id, patch)`: `None` when no lane has a task with the id (the store then
      reports "not found" and keeps its state); otherwise every lane patched. */
  function Updated(s: Lanes, id: string, patch: Task): (r: Option<Lanes>)
    ensures r.Some? <==> exists lane: Lane :: Holds(LaneOf(s, lane), id)
    ensures r.Some? ==> forall lane: Lane :: |LaneOf(r.value, lane)| == |LaneOf(s, lane)|
  {
    assert Holds(s.current, id) ==> Holds(LaneOf(s, Current), id);
    assert Holds(s.pending, id) ==> Holds(LaneOf(s, Pending), id);
    assert Holds(s.completed, id) ==> Holds(LaneOf(s, Completed), id);
    if Holds(s.current, id) || Holds(s.pending, id) || Holds(s.completed, id) then
      Some(Lanes(Patched(s.current, id, patch), Patched(s.pending, id, patch), Patched(s.completed, id, patch)))
    else None
  }

  /** Patching a lane without a task that has the id changes nothing. */
  lemma PatchedWithoutMatch(lane: seq<Task>, id: string, patch: Task)
    requires !Holds(lane, id)
    ensures Patched(lane, id, patch) == lane
  {
  }

  /** A successful update keeps every lane's length and positions, merges the patch into
      each task with the id, and leaves every other task as it was. */
  lemma UpdatedKeepsLanes(s: Lanes, id: string, patch: Task)
    requires Updated(s, id, patch).Some?
    ensures forall lane: Lane :: |LaneOf(Updated(s, id, patch).value, lane)| == |LaneOf(s, lane)|
    ensures forall lane: Lane, i | 0 <= i < |LaneOf(s, lane)| ::
      LaneOf(Updated(s, id, patch).value, lane)[i]
        == if HasId(LaneOf(s, lane)[i], id) then Merge(LaneOf(s, lane)[i], patch) else LaneOf(s, lane)[i]
  {
  }

  /** Patching a lane a second time with a patch that does not rename the task changes
      nothing more, and the patched lane still has a task with the id. */
  lemma PatchedIdempotent(lane: seq<Task>, id: string, patch: Task)
    requires patch.id.None? || patch.id == Some(id)
    ensures Patched(Patched(lane, id, patch), id, patch) == Patched(lane, id, patch)
    ensures Holds(lane, id) ==> Holds(Patched(lane, id, patch), id)
  {
    var after := Patched(lane, id, patch);
    if Holds(lane, id) {
      var t :| t in lane && HasId(t, id);
      var i :| 0 <= i < |lane| && lane[i] == t;
      assert after[i] in after && HasId(after[i], id);
    }
    forall i | 0 <= i < |after| ensures Patched(after, id, patch)[i] == after[i] {
      if HasId(lane[i], id) {
        MergeIdempotent(lane[i], patch);
      }
    }
  }

  /** Applying an update that does not rename the task a second time changes nothing more. */
  lemma UpdatedIdempotent(s: Lanes, id: string, patch: Task)
    requires patch.id.None? || patch.id == Some(id)
    requires Updated(s, id, patch).Some?
    ensures Updated(Updated(s, id, patch).value, id, patch) == Updated(s, id, patch)
  {
    PatchedIdempotent(s.current, id, patch);
    PatchedIdempotent(s.pending, id, patch);
    PatchedIdempotent(s.completed, id, patch);
  }

  // ---------------------------------------------------------------- changeStatus

  /** `lane.find(t => t.id === id)`: the first task with the id, if any. */
  function Find(lane: seq<Task>, id: string): (r: Option<Task>)
    ensures r.None? ==> !Holds(lane, id)
    ensures r.Some? ==> exists i | 0 <= i < |lane| :: lane[i] == r.value && HasId(lane[i], id)
                          && forall j | 0 <= j < i :: !HasId(lane[j], id)
  {
    if lane == [] then None
    else if HasId(lane[0], id) then Some(lane[0])
    else
      var r := Find(lane[1..], id);
      assert r.None? ==> forall t | t in lane :: t == lane[0] || t in lane[1..];
      r
  }

  /** `changeStatus(id, from, to)`: `None` when lane `from` has no task with the id (the
      store then reports it and keeps its state). Otherwise lane `from` loses every task
      with the id and then lane `to` becomes its old contents followed by the first such
      task with Status `to`; when `from == to` the second key wins. */
  function Moved(s: Lanes, id: string, from: Lane, to: Lane): (r: Option<Lanes>)
    ensures r.None? <==> !Holds(LaneOf(s, from), id)
    ensures r.Some? ==> var target := LaneOf(r.value, to);
      |target| == |LaneOf(s, to)| + 1 &&
      HasId(target[|target| - 1], id) && target[|target| - 1].status == Some(Key(to))
  {
    match Find(LaneOf(s, from), id)
    case None => None
    case Some(task) =>
      var removed := WithLane(s, from, Filter(LaneOf(s, from), IdIsNot(id)));
      Some(WithLane(removed, to, LaneOf(s, to) + [task.(status := Some(Key(to)))]))
  }

  /** Moving fails exactly when lane `from` has no task with the id. */
  lemma MovedFailsIffMissing(s: Lanes, id: string, from: Lane, to: Lane)
    ensures Moved(s, id, from, to).None? <==> !Holds(LaneOf(s, from), id)
  {
  }

  /** Between two lanes: lane `from` keeps, in order, exactly its tasks without the id;
      lane `to` gets the first task with the id appended, its Status rewritten; the
      third lane is unchanged. */
  lemma MovedBetweenLanes(s: Lanes, id: string, from: Lane, to: Lane)
    requires from != to && Holds(LaneOf(s, from), id)
    ensures var r := Moved(s, id, from, to);
      var task := Find(LaneOf(s, from), id).value;
      r.Some? &&
      LaneOf(r.value, from) == Filter(LaneOf(s, from), IdIsNot(id)) &&
      !Holds(LaneOf(r.value, from), id) &&
      LaneOf(r.value, to) == LaneOf(s, to) + [task.(status := Some(Key(to)))] &&
      HasId(task, id) && task in LaneOf(s, from) &&
      forall other: Lane | other != from && other != to :: LaneOf(r.value, other) == LaneOf(s, other)
  {
  }

  /** With exactly one task carrying the id in lane `from`, moving it to another lane
      keeps the number of tasks. */
  lemma MovedKeepsTotal(s: Lanes, id: string, from: Lane, to: Lane)
    requires from != to
    requires |Filter(LaneOf(s, from), IdIs(id))| == 1
    ensures Moved(s, id, from, to).Some?
    ensures Total(Moved(s, id, from, to).value) == Total(s)
  {
    var lane := LaneOf(s, from);
    var hits := Filter(lane, IdIs(id));
    assert hits[0] in hits;
    assert HasId(hits[0], id) && hits[0] in lane;
    FilterSplitsLength(lane, IdIs(id), IdIsNot(id));
    var r := Moved(s, id, from, to).value;
    assert |LaneOf(r, from)| == |lane| - 1;
    assert |LaneOf(r, to)| == |LaneOf(s, to)| + 1;
  }

  /** Within one lane the unfiltered copy wins: the lane keeps every task and gains the
      re-statused one at its end, so that task now appears one time more. */
  lemma MovedWithinLaneDuplicates(s: Lanes, id: string, lane: Lane)
    requires Holds(LaneOf(s, lane), id)
    ensures var r := Moved(s, id, lane, lane);
      var task := Find(LaneOf(s, lane), id).value;
      r.Some? &&
      LaneOf(r.value, lane) == LaneOf(s, lane) + [task.(status := Some(Key(lane)))] &&
      |Filter(LaneOf(r.value, lane), IdIs(id))| == |Filter(LaneOf(s, lane), IdIs(id))| + 1
  {
    var task := Find(LaneOf(s, lane), id).value;
    var moved := task.(status := Some(Key(lane)));
    FilterAppend(LaneOf(s, lane), [moved], IdIs(id));
    assert Filter([moved], IdIs(id)) == [moved];
  }

  // ---------------------------------------------------------------- the provider

  /** The state of `TodoProvider`. */
  class TodoProvider {
    var todos: Lanes
    var filters: map<string, string>
    var sortBy: string
    var searchTerm: string

    /** The initial state: three empty lanes, no filters, sorted by due date, no search. */
    constructor ()
      ensures todos == NoLanes && Total(todos) == 0
      ensures filters == map[] && sortBy == "dueDate" && searchTerm == ""
    {
      todos := NoLanes;
      filters := map[];
      sortBy := "dueDate";
      searchTerm := "";
    }

    /** `addTodo`. */
    method AddTodo(todo: Task, now: string)
      modifies this`todos
      ensures todos == Added(old(todos), todo, now)
    {
      var newTodos := todos.(current := todos.current + [todo.(id := Some(now))]);
      todos := newTodos;
    }

    /** `deleteTodo`. */
    method DeleteTodo(id: string, status: Lane)
      modifies this`todos
      ensures todos == Deleted(old(todos), id, status)
    {
      var newTodos := WithLane(todos, status, Filter(LaneOf(todos, status), IdIsNot(id)));
      todos := newTodos;
    }

    /** `updateTodo`: `found` is false, and nothing changes, when no lane has the id. */
    method UpdateTodo(id: string, updatedTodo: Task) returns (found: bool)
      modifies this`todos
      ensures found <==> Updated(old(todos), id, updatedTodo).Some?
      ensures todos == if found then Updated(old(todos), id, updatedTodo).value else old(todos)
    {
      var current, inCurrent := MapLane(todos.current, id, updatedTodo);
      var pending, inPending := MapLane(todos.pending, id, updatedTodo);
      var completed, inCompleted := MapLane(todos.completed, id, updatedTodo);
      found := inCurrent || inPending || inCompleted;
      if !found {
        return;
      }
      todos := Lanes(current, pending, completed);
    }

    /** `changeStatus`: `found` is false, and nothing changes, when lane `currentStatus`
        has no task with the id. */
    method ChangeStatus(id: string, currentStatus: Lane, newStatus: Lane) returns (found: bool)
      modifies this`todos
      ensures found <==> Moved(old(todos), id, currentStatus, newStatus).Some?
      ensures todos == if found then Moved(old(todos), id, currentStatus, newStatus).value else old(todos)
    {
      var taskToMove := Find(LaneOf(todos, currentStatus), id);
      if taskToMove.None? {
        return false;
      }
      var removed := WithLane(todos, currentStatus, Filter(LaneOf(todos, currentStatus), IdIsNot(id)));
      todos := WithLane(removed, newStatus, LaneOf(todos, newStatus) + [taskToMove.value.(status := Some(Key(newStatus)))]);
      found := true;
    }
  }
}
