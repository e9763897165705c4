/** The task record and the data a task form submits. Dates are `Date.getTime()`
    values: integer milliseconds since the epoch. */
module TaskTypes {
  import opened Wrappers

  datatype Priority = Low | Medium | High

  datatype Task = Task(
    id: string,
    title: string,
    description: string,
    dueDate: Option<int>,
    completed: bool,
    priority: Priority,
    createdAt: int,
    tags: seq<string>)

  datatype TaskFormData = TaskFormData(
    title: string,
    description: string,
    dueDate: Option<int>,
    priority: Priority,
    tags: seq<string>)
}
