/** The task store behind `TasksProvider` (src/hooks/useTasks.tsx): one collection of
    tasks that every operation replaces by a new value, and the notification (toast)
    each operation raises. Local storage, JSON and the toast library are not modelled;
    a snapshot is given already parsed, and a notification is returned. */
module TaskStore {
  import opened Wrappers
  import opened Seqs
  import opened TaskTypes
  import opened TaskUtils

  /** A toast: its title, its description, and whether it uses the destructive style. */
  datatype Notification = Notification(title: string, description: string, destructive: bool)

  /** `Partial<Task>`: every field may be supplied (`Some`) or left out (`None`). */
  datatype TaskPatch = TaskPatch(
    id: Option<string>,
    title: Option<string>,
    description: Option<string>,
    dueDate: Option<Option<int>>,
    completed: Option<bool>,
    priority: Option<Priority>,
    createdAt: Option<int>,
    tags: Option<seq<string>>)

  function OrElse<T>(supplied: Option<T>, current: T): T {
    if supplied.Some? then supplied.value else current
  }

  /** `{ ...task, ...updates }`: supplied fields replace the task's, the others stay. */
  function Overlay(task: Task, patch: TaskPatch): (t: Task)
    ensures patch == TaskPatch(None, None, None, None, None, None, None, None) ==> t == task
    ensures (patch.id.Some? ==> t.id == patch.id.value) && (patch.id.None? ==> t.id == task.id)
    ensures (patch.title.Some? ==> t.title == patch.title.value)
            && (patch.title.None? ==> t.title == task.title)
    ensures (patch.description.Some? ==> t.description == patch.description.value)
            && (patch.description.None? ==> t.description == task.description)
    ensures (patch.dueDate.Some? ==> t.dueDate == patch.dueDate.value)
            && (patch.dueDate.None? ==> t.dueDate == task.dueDate)
    ensures (patch.completed.Some? ==> t.completed == patch.completed.value)
            && (patch.completed.None? ==> t.completed == task.completed)
    ensures (patch.priority.Some? ==> t.priority == patch.priority.value)
            && (patch.priority.None? ==> t.priority == task.priority)
    ensures (patch.createdAt.Some? ==> t.createdAt == patch.createdAt.value)
            && (patch.createdAt.None? ==> t.createdAt == task.createdAt)
    ensures (patch.tags.Some? ==> t.tags == patch.tags.value)
            && (patch.tags.None? ==> t.tags == task.tags)
  {
    Task(
      OrElse(patch.id, task.id),
      OrElse(patch.title, task.title),
      OrElse(patch.description, task.description),
      OrElse(patch.dueDate, task.dueDate),
      OrElse(patch.completed, task.completed),
      OrElse(patch.priority, task.priority),
      OrElse(patch.createdAt, task.createdAt),
      OrElse(patch.tags, task.tags))
  }

  /** `tasks[i]` is the first task with identifier `id`. */
  predicate FirstWithId(tasks: seq<Task>, id: string, i: int) {
    0 <= i < |tasks| && tasks[i].id == id && forall j :: 0 <= j < i ==> tasks[j].id != id
  }

  /** `tasks.find(task => task.id === id)`. */
  function Find(tasks: seq<Task>, id: string): (r: Option<Task>)
    ensures r.None? <==> forall i :: 0 <= i < |tasks| ==> tasks[i].id != id
    ensures r.Some? ==> exists i :: FirstWithId(tasks, id, i) && tasks[i] == r.value
  {
    if tasks == [] then None
    else if tasks[0].id == id then
      assert FirstWithId(tasks, id, 0);
      Some(tasks[0])
    else
      var r := Find(tasks[1..], id);
      assert forall i :: 1 <= i < |tasks| ==> tasks[i] == tasks[1..][i - 1];
      if r.Some? then
        var k :| FirstWithId(tasks[1..], id, k) && tasks[1..][k] == r.value;
        assert FirstWithId(tasks, id, k + 1);
        r
      else r
  }

  /** The new collection of `updateTask`: the `map` that overlays the patch on every
      task with identifier `id`. */
  function Updated(tasks: seq<Task>, id: string, patch: TaskPatch): (r: seq<Task>)
    ensures |r| == |tasks|
    ensures forall i :: 0 <= i < |tasks| && tasks[i].id != id ==> r[i] == tasks[i]
    ensures forall i :: 0 <= i < |tasks| && tasks[i].id == id ==> r[i] == Overlay(tasks[i], patch)
    ensures Find(tasks, id).None? ==> r == tasks
  {
    seq(|tasks|, i requires 0 <= i < |tasks| =>
      if tasks[i].id == id then Overlay(tasks[i], patch) else tasks[i])
  }

  /** The new collection of `deleteTask`: the `filter` that drops every task with
      identifier `id`. */
  function Removed(tasks: seq<Task>, id: string): (r: seq<Task>)
    ensures forall t :: t in r <==> t in tasks && t.id != id
    ensures |r| <= |tasks|
  {
    Filter(tasks, (t: Task) => t.id != id)
  }

  /** The new collection of `toggleTaskCompletion`: the `map` that flips `completed` on
      every task with identifier `id`. */
  function Toggled(tasks: seq<Task>, id: string): (r: seq<Task>)
    ensures |r| == |tasks|
    ensures forall i :: 0 <= i < |tasks| ==>
      && r[i].(completed := tasks[i].completed) == tasks[i]
      && (r[i].completed != tasks[i].completed <==> tasks[i].id == id)
  {
    seq(|tasks|, i requires 0 <= i < |tasks| =>
      if tasks[i].id == id then tasks[i].(completed := !tasks[i].completed) else tasks[i])
  }

  /** Number of tasks in `tasks` with identifier `id`. */
  function CountId(tasks: seq<Task>, id: string): nat {
    if tasks == [] then 0 else (if tasks[0].id == id then 1 else 0) + CountId(tasks[1..], id)
  }

  function Quoted(s: string): string {
    "\"" + s + "\""
  }

  // ------------------------------------------------------------ initial state

  /** A due date as the snapshot holds it: a falsy value (JSON `null`, or anything else
      JavaScript treats as false), or a date string that `new Date` reads back as `ms`. */
  datatype StoredDate = Falsy | DateValue(ms: int)

  /** One record of the snapshot after `JSON.parse`: dates are still serialized. */
  datatype StoredTask = StoredTask(
    id: string,
    title: string,
    description: string,
    dueDate: StoredDate,
    completed: bool,
    priority: Priority,
    createdAt: int,
    tags: seq<string>)

  /** What `localStorage.getItem("tasks")` followed by `JSON.parse` yields: nothing (a
      missing or empty entry), something that is not an array of records, or the records. */
  datatype Snapshot = Missing | Malformed | Records(records: seq<StoredTask>)

  /** The record `JSON.stringify` writes for a task: no due date becomes `null`. */
  function Store(task: Task): (r: StoredTask)
    ensures r.dueDate.Falsy? <==> task.dueDate.None?
    ensures Revive(r) == task
  {
    StoredTask(task.id, task.title, task.description,
               if task.dueDate.None? then Falsy else DateValue(task.dueDate.value),
               task.completed, task.priority, task.createdAt, task.tags)
  }

  /** The mapping applied to each loaded record: dates are read back, a falsy due date
      becomes `null`. */
  function Revive(record: StoredTask): (t: Task)
    ensures t.dueDate.None? <==> record.dueDate.Falsy?
    ensures record.dueDate.DateValue? ==> t.dueDate == Some(record.dueDate.ms)
    ensures t.createdAt == record.createdAt && t.id == record.id
    ensures t.title == record.title && t.description == record.description
    ensures t.completed == record.completed && t.priority == record.priority
    ensures t.tags == record.tags
  {
    Task(record.id, record.title, record.description,
         if record.dueDate.Falsy? then None else Some(record.dueDate.ms),
         record.completed, record.priority, record.createdAt, record.tags)
  }

  function StoreAll(tasks: seq<Task>): (r: seq<StoredTask>)
    ensures |r| == |tasks| && forall i :: 0 <= i < |tasks| ==> Revive(r[i]) == tasks[i]
  {
    seq(|tasks|, i requires 0 <= i < |tasks| => Store(tasks[i]))
  }

  /** The four demonstration tasks: due in two days, in five days, tomorrow, and
      without a due date. `seedIds` stand for the identifiers `generateId` draws. */
  function SeedTasks(seedIds: seq<string>, now: int): (r: seq<Task>)
    requires |seedIds| == 4
    ensures |r| == 4 && forall i :: 0 <= i < 4 ==> r[i].id == seedIds[i] && !r[i].completed
    ensures r[3].dueDate.None? && r[2].dueDate == Some(now + 86400000)
  {
    [ CreateTask(seedIds[0], now, "Complete project proposal",
                 "Draft the initial proposal for the client meeting",
                 Some(now + 86400000 * 2), High, ["work", "client"]),
      CreateTask(seedIds[1], now, "Study for exam",
                 "Review chapters 5-8 for upcoming midterm",
                 Some(now + 86400000 * 5), Medium, ["school", "exam"]),
      CreateTask(seedIds[2], now, "Grocery shopping",
                 "Buy ingredients for the week",
                 Some(now + 86400000), Low, ["personal", "shopping"]),
      CreateTask(seedIds[3], now, "Gym workout",
                 "30 min cardio and strength training",
                 None, Medium, ["health", "fitness"]) ]
  }

  /** The `useState` initialiser: the revived records of a readable snapshot, otherwise
      the seed tasks. */
  function InitialTasks(saved: Snapshot, seedIds: seq<string>, now: int): (r: seq<Task>)
    requires |seedIds| == 4
    ensures !saved.Records? ==> r == SeedTasks(seedIds, now)
    ensures saved.Records? ==>
      |r| == |saved.records| && forall i :: 0 <= i < |r| ==> r[i] == Revive(saved.records[i])
  {
    match saved
    case Records(records) => seq(|records|, i requires 0 <= i < |records| => Revive(records[i]))
    case _ => SeedTasks(seedIds, now)
  }

  /** Saving and loading again gives back the same collection, undated tasks included. */
  lemma {:induction false} LoadAfterSave(tasks: seq<Task>, seedIds: seq<string>, now: int)
    requires |seedIds| == 4
    ensures InitialTasks(Records(StoreAll(tasks)), seedIds, now) == tasks
  {
  }

  // -------------------------------------------------------------- the store

  /** Identifiers are pairwise distinct. */
  ghost predicate UniqueIds(tasks: seq<Task>) {
    forall i, j :: 0 <= i < j < |tasks| ==> tasks[i].id != tasks[j].id
  }

  class TasksProvider {
    var tasks: seq<Task>

    /** Mounting the provider: the collection starts from the snapshot or the seeds. */
    constructor (saved: Snapshot, seedIds: seq<string>, now: int)
      requires |seedIds| == 4
      ensures tasks == InitialTasks(saved, seedIds, now)
    {
      tasks := InitialTasks(saved, seedIds, now);
    }

    /** `addTask`: the new task goes first, and a notification names its title. */
    method AddTask(data: TaskFormData, id: string, now: int) returns (notice: Option<Notification>)
      modifies this
      ensures tasks == [CreateTask(id, now, data.title, data.description, data.dueDate,
                                   data.priority, data.tags)] + old(tasks)
      ensures notice == Some(Notification("Task added",
                                          Quoted(data.title) + " has been added to your tasks.", false))
    {
      var task := CreateTask(id, now, data.title, data.description, data.dueDate,
                             data.priority, data.tags);
      tasks := [task] + tasks;
      notice := Some(Notification("Task added",
                                  Quoted(data.title) + " has been added to your tasks.", false));
    }

    /** `updateTask`: overlays the patch on the tasks with that identifier, and notifies
        whether or not any task matched. */
    method UpdateTask(id: string, patch: TaskPatch) returns (notice: Option<Notification>)
      modifies this
      ensures tasks == Updated(old(tasks), id, patch)
      ensures notice == Some(Notification("Task updated",
                                          "The task has been successfully updated.", false))
    {
      tasks := Updated(tasks, id, patch);
      notice := Some(Notification("Task updated", "The task has been successfully updated.", false));
    }

    /** `deleteTask`: drops the tasks with that identifier; a notification naming the
        first of them is raised only if there was one. */
    method DeleteTask(id: string) returns (notice: Option<Notification>)
      modifies this
      ensures tasks == Removed(old(tasks), id)
      ensures notice.Some? <==> Find(old(tasks), id).Some?
      ensures notice.Some? ==> notice == Some(Notification("Task deleted",
                Quoted(Find(old(tasks), id).value.title) + " has been removed.", true))
    {
      var taskToDelete := Find(tasks, id);
      tasks := Removed(tasks, id);
      if taskToDelete.Some? {
        notice := Some(Notification("Task deleted",
                                    Quoted(taskToDelete.value.title) + " has been removed.", true));
      } else {
        notice := None;
      }
    }

    /** `toggleTaskCompletion`: flips `completed` on the tasks with that identifier. The
        notification, raised only if such a task exists, is framed by the new state of
        the first of them. */
    method ToggleTaskCompletion(id: string) returns (notice: Option<Notification>)
      modifies this
      ensures tasks == Toggled(old(tasks), id)
      ensures notice.Some? <==> Find(old(tasks), id).Some?
      ensures notice.Some? ==>
        var task := Find(old(tasks), id).value;
        notice.value == if !task.completed
          then Notification("Task completed", Quoted(task.title) + " marked as complete.", false)
          else Notification("Task reopened", Quoted(task.title) + " marked as incomplete.", false)
    {
      var task := Find(tasks, id);
      tasks := Toggled(tasks, id);
      if task.Some? {
        var newStatus := !task.value.completed;
        notice := Some(if newStatus
          then Notification("Task completed", Quoted(task.value.title) + " marked as complete.", false)
          else Notification("Task reopened", Quoted(task.value.title) + " marked as incomplete.", false));
      } else {
        notice := None;
      }
    }

    /** `getTask`: the first task with that identifier, if any. */
    function GetTask(id: string): (r: Option<Task>)
      reads this
      ensures r.None? <==> forall i :: 0 <= i < |tasks| ==> tasks[i].id != id
      ensures r.Some? ==> exists i :: FirstWithId(tasks, id, i) && tasks[i] == r.value
    {
      Find(tasks, id)
    }
  }

  // --------------------------------------------------- properties of the operations

  /** `updateTask` overlays the supplied fields on every matching task, keeps the
      unsupplied ones, and leaves the other tasks, their order and the length alone. An
      unknown identifier changes nothing. It restates the contracts of `Updated` and
      `Overlay` field by field, as the statement `UpdateTask`'s new state is read by. */
  lemma UpdatedEffect(tasks: seq<Task>, id: string, patch: TaskPatch)
    ensures var r := Updated(tasks, id, patch);
      && |r| == |tasks|
      && (forall i :: 0 <= i < |tasks| && tasks[i].id != id ==> r[i] == tasks[i])
      && (forall i :: 0 <= i < |tasks| && tasks[i].id == id ==>
            && r[i].title == OrElse(patch.title, tasks[i].title)
            && r[i].description == OrElse(patch.description, tasks[i].description)
            && r[i].dueDate == OrElse(patch.dueDate, tasks[i].dueDate)
            && r[i].completed == OrElse(patch.completed, tasks[i].completed)
            && r[i].priority == OrElse(patch.priority, tasks[i].priority)
            && r[i].tags == OrElse(patch.tags, tasks[i].tags)
            && r[i].id == OrElse(patch.id, tasks[i].id)
            && r[i].createdAt == OrElse(patch.createdAt, tasks[i].createdAt))
      && (Find(tasks, id).None? ==> r == tasks)
  {
  }

  /** `deleteTask` keeps, in order, exactly the tasks with another identifier, and
      removes as many tasks as carried the identifier. */
  lemma {:induction false} RemovedEffect(tasks: seq<Task>, id: string)
    ensures var r := Removed(tasks, id);
      && IsSubsequence(r, tasks)
      && (forall t :: t in r ==> t.id != id)
      && (forall i :: 0 <= i < |tasks| && tasks[i].id != id ==> tasks[i] in r)
      && |r| == |tasks| - CountId(tasks, id)
      && (Find(tasks, id).None? ==> r == tasks)
  {
    FilterIsSubsequence(tasks, (t: Task) => t.id != id);
    RemovedLength(tasks, id);
    if Find(tasks, id).None? {
      FilterAll(tasks, (t: Task) => t.id != id);
    }
  }

  lemma {:induction false} RemovedLength(tasks: seq<Task>, id: string)
    ensures |Removed(tasks, id)| == |tasks| - CountId(tasks, id)
  {
    if tasks != [] {
      RemovedLength(tasks[1..], id);
    }
  }

  /** `toggleTaskCompletion` flips `completed` on the matching tasks and changes nothing
      else; an unknown identifier changes nothing. It restates the contract of `Toggled`
      index by index, as the statement `ToggleTaskCompletion`'s new state is read by. */
  lemma ToggledEffect(tasks: seq<Task>, id: string)
    ensures var r := Toggled(tasks, id);
      && |r| == |tasks|
      && (forall i :: 0 <= i < |tasks| ==>
            r[i] == if tasks[i].id == id then tasks[i].(completed := !tasks[i].completed) else tasks[i])
      && (Find(tasks, id).None? ==> r == tasks)
  {
  }

  /** Toggling twice restores the collection. */
  lemma ToggleTwice(tasks: seq<Task>, id: string)
    ensures Toggled(Toggled(tasks, id), id) == tasks
  {
  }

  /** After a toggle, the first task with that identifier has the new state the
      notification announces: "Task completed" exactly when it is now completed. */
  lemma {:induction false} ToggleNoticeMatchesNewState(tasks: seq<Task>, id: string)
    requires Find(tasks, id).Some?
    ensures Find(Toggled(tasks, id), id).Some?
    ensures Find(Toggled(tasks, id), id).value.completed == !Find(tasks, id).value.completed
  {
    var r := Toggled(tasks, id);
    if tasks[0].id != id {
      assert r[1..] == Toggled(tasks[1..], id);
      ToggleNoticeMatchesNewState(tasks[1..], id);
    }
  }

  /** The operations keep identifiers pairwise distinct, provided an added task gets an
      identifier not yet in use and an update does not supply an identifier. */
  lemma {:induction false} OperationsKeepIdsUnique(tasks: seq<Task>, task: Task, id: string, patch: TaskPatch)
    requires UniqueIds(tasks)
    ensures Find(tasks, task.id).None? ==> UniqueIds([task] + tasks)
    ensures patch.id.None? ==> UniqueIds(Updated(tasks, id, patch))
    ensures UniqueIds(Toggled(tasks, id))
    ensures UniqueIds(Removed(tasks, id))
  {
    RemovedKeepsIdsUnique(tasks, id);
  }

  lemma {:induction false} RemovedKeepsIdsUnique(tasks: seq<Task>, id: string)
    requires UniqueIds(tasks)
    ensures UniqueIds(Removed(tasks, id))
  {
    if tasks != [] {
      var rest := tasks[1..];
      assert UniqueIds(rest);
      RemovedKeepsIdsUnique(rest, id);
      var r := Removed(rest, id);
      if tasks[0].id != id {
        assert Removed(tasks, id) == [tasks[0]] + r;
        forall t | t in r ensures t.id != tasks[0].id {
          assert t in rest;
        }
      }
    }
  }
}
