/**
 * The records `TaskFlowApp` keeps: tasks, categories and the values read from the
 * task form. Times are milliseconds since the epoch; a due date is the timestamp of
 * the due day's midnight.
 */
module Tasks {
  import opened Wrappers
  import Text

  /** `low | medium | high | urgent`. */
  datatype Priority = Low | Medium | High | Urgent

  /** `pending | in-progress | completed`; stored next to, and independently of, `completed`. */
  datatype Status = Pending | InProgress | Completed

  datatype Task = Task(
    id: string,
    title: string,
    description: string,
    category: string,
    priority: Priority,
    dueDate: Option<int>,
    dueTime: Option<string>,
    tags: seq<string>,
    completed: bool,
    status: Status,
    createdAt: int,
    updatedAt: int,
    completedAt: Option<int>)

  /** A named, coloured grouping a task refers to by `category == id`. */
  datatype Category = Category(id: string, name: string, color: string)

  /** The built-in categories used when none are stored (script.js:4-8). */
  const DefaultCategories: seq<Category> := [
    Category("work", "Work", "#3B82F6"),
    Category("personal", "Personal", "#14B8A6"),
    Category("shopping", "Shopping", "#F97316")
  ]

  /** The raw values of the task form's fields; an empty date field is `None`. */
  datatype TaskForm = TaskForm(
    title: string,
    description: string,
    category: string,
    priority: Priority,
    dueDate: Option<int>,
    dueTime: string,
    tags: string)

  /** The form values after cleaning (`taskData`). */
  datatype TaskData = TaskData(
    title: string,
    description: string,
    category: string,
    priority: Priority,
    dueDate: Option<int>,
    dueTime: Option<string>,
    tags: seq<string>)

  /**
   * Reads the form: title and description trimmed, an empty time becomes `null`,
   * tags split at commas, trimmed, empties dropped (script.js:321-332).
   */
  function ReadForm(f: TaskForm): (d: TaskData)
    ensures d.title == Text.Trim(f.title) && d.description == Text.Trim(f.description)
    ensures d.category == f.category && d.priority == f.priority && d.dueDate == f.dueDate
    ensures d.dueTime == if f.dueTime == [] then None else Some(f.dueTime)
    ensures d.tags == Text.ParseTags(f.tags)
    ensures d.title == [] <==> Text.IsBlank(f.title)
    ensures Text.IsTrimmed(d.title) && Text.IsTrimmed(d.description)
    ensures d.dueTime.None? <==> f.dueTime == []
    ensures forall tag :: tag in d.tags ==> tag != [] && Text.IsTrimmed(tag) && ',' !in tag
  {
    TaskData(
      Text.Trim(f.title),
      Text.Trim(f.description),
      f.category,
      f.priority,
      f.dueDate,
      if f.dueTime == [] then None else Some(f.dueTime),
      Text.ParseTags(f.tags))
  }

  /** The form as `populateForm` fills it in for editing `t` (script.js:307-315). */
  function FormOf(t: Task): TaskForm
  {
    TaskForm(t.title, t.description, t.category, t.priority, t.dueDate,
      if t.dueTime.Some? then t.dueTime.value else "", Text.Join(t.tags, ", "))
  }

  /** A task whose text fields are in the shape the form produces. */
  predicate WellFormed(t: Task) {
    Text.IsTrimmed(t.title) && Text.IsTrimmed(t.description)
    && (t.dueTime.Some? ==> t.dueTime.value != [])
    && forall tag :: tag in t.tags ==> tag != [] && Text.IsTrimmed(tag) && ',' !in tag
  }

  /** Opening the edit form on a well-formed task and saving it unchanged reads back its own fields. */
  lemma ReadFormOfTask(t: Task)
    requires WellFormed(t)
    ensures ReadForm(FormOf(t)) == Data(t)
  {
    Text.TrimOfTrimmed(t.title);
    Text.TrimOfTrimmed(t.description);
    Text.TagsRoundTrip(t.tags);
  }

  /** The fields of a task the form writes. */
  function Data(t: Task): TaskData {
    TaskData(t.title, t.description, t.category, t.priority, t.dueDate, t.dueTime, t.tags)
  }

  /** The record `handleTaskSubmit` pushes for a new task (script.js:346-354). */
  function NewTask(id: string, d: TaskData, now: int): (t: Task)
    ensures !t.completed && t.status == Pending && t.completedAt.None?
    ensures t.id == id && t.createdAt == now && t.updatedAt == now
    ensures Data(t) == d
  {
    Task(id, d.title, d.description, d.category, d.priority, d.dueDate, d.dueTime, d.tags,
      false, Pending, now, now, None)
  }

  /** `Object.assign(task, taskData, { updatedAt })`: the form fields and `updatedAt` are overwritten (script.js:342). */
  function Edited(t: Task, d: TaskData, now: int): (r: Task)
    ensures r.id == t.id && r.completed == t.completed && r.status == t.status
    ensures r.createdAt == t.createdAt && r.completedAt == t.completedAt
    ensures r.updatedAt == now
    ensures Data(r) == d
  {
    t.(title := d.title, description := d.description, category := d.category,
       priority := d.priority, dueDate := d.dueDate, dueTime := d.dueTime, tags := d.tags,
       updatedAt := now)
  }

  /** The checkbox: flips `completed`, stamps or clears `completedAt`, leaves `status` alone (script.js:267-268). */
  function Toggled(t: Task, now: int): (r: Task)
    ensures r.completed == !t.completed
    ensures r.completedAt.Some? <==> r.completed
    ensures r.completed ==> r.completedAt == Some(now)
    ensures r == t.(completed := r.completed, completedAt := r.completedAt)
  {
    t.(completed := !t.completed, completedAt := if !t.completed then Some(now) else None)
  }

  /** A drop on a kanban column: status, `completed` and `completedAt` set together (script.js:494-502). */
  function WithStatus(t: Task, s: Status, now: int): (r: Task)
    ensures r.status == s
    ensures r.completed <==> s == Completed
    ensures r.completedAt.Some? <==> r.completed
    ensures r.completed ==> r.completedAt == Some(now)
    ensures r.updatedAt == now
    ensures r == t.(status := s, completed := r.completed, completedAt := r.completedAt, updatedAt := now)
  {
    if s == Completed then t.(status := s, completed := true, completedAt := Some(now), updatedAt := now)
    else t.(status := s, completed := false, completedAt := None, updatedAt := now)
  }

  /** `completed` and `status` agree, the convention `WithStatus` restores. */
  predicate Consistent(t: Task) {
    t.completed <==> t.status == Completed
  }

  lemma WithStatusConsistent(t: Task, s: Status, now: int)
    ensures Consistent(WithStatus(t, s, now))
  {
  }

  /**
   * The checkbox breaks the convention for a task that is in progress: ticking it
   * leaves `status == InProgress` next to `completed == true`.
   */
  lemma ToggleInProgressDrifts(t: Task, now: int)
    requires t.status == InProgress && !t.completed
    ensures Toggled(t, now).completed && Toggled(t, now).status == InProgress
    ensures !Consistent(Toggled(t, now))
  {
  }
}
