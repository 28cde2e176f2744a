/** The task record both stores hold. A task is a JavaScript object whose keys
    may be missing: every key is an `Option`, `None` standing for `undefined`. */
module Tasks {

  datatype Option<T> = None | Some(value: T)

  /** A task, or a draft of one, or a parsed CSV row, or an update patch:
      the keys `Title`, `Description`, `Status`, `DueDate`, `Priority`,
      `AssignedTo` and `id`. */
  datatype Task = Task(
    title: Option<string>,
    description: Option<string>,
    status: Option<string>,
    dueDate: Option<string>,
    priority: Option<string>,
    assignedTo: Option<string>,
    id: Option<string>)

  /** The keys a form input can name (its `name` attribute). */
  datatype Field = Title | Description | Status | DueDate | Priority | AssignedTo

  function Get(t: Task, f: Field): Option<string>
  {
    match f
    case Title => t.title
    case Description => t.description
    case Status => t.status
    case DueDate => t.dueDate
    case Priority => t.priority
    case AssignedTo => t.assignedTo
  }

  /** `{ ...t, [f]: v }`: the key `f` holds `v`, every other key is as in `t`. */
  function WithField(t: Task, f: Field, v: string): (r: Task)
    ensures Get(r, f) == Some(v)
    ensures forall g: Field | g != f :: Get(r, g) == Get(t, g)
    ensures r.id == t.id
  {
    match f
    case Title => t.(title := Some(v))
    case Description => t.(description := Some(v))
    case Status => t.(status := Some(v))
    case DueDate => t.(dueDate := Some(v))
    case Priority => t.(priority := Some(v))
    case AssignedTo => t.(assignedTo := Some(v))
  }

  /** JavaScript truthiness of a string-valued key: present and not empty. */
  predicate Truthy(o: Option<string>)
  {
    o.Some? && o.value != ""
  }

  /** `o || ''`. */
  function OrEmpty(o: Option<string>): (r: string)
    ensures Truthy(o) ==> r == o.value
    ensures r == "" <==> !Truthy(o)
  {
    if Truthy(o) then o.value else ""
  }

  /** `t.id === id` for a string `id`. */
  predicate HasId(t: Task, id: string)
  {
    t.id == Some(id)
  }
}
