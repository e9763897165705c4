/** The task form (src/components/TaskForm.tsx): the validation schema, the values a
    form starts from, the tag list editor and the submission that hands the values to
    the task store. Rendering, focus and dialog handling are not modelled. */
module TaskForm {
  import opened Wrappers
  import opened Seqs
  import opened Text
  import opened TaskTypes
  import opened TaskUtils
  import opened TaskStore

  const TitleRequired := "Title is required"
  const TitleTooLong := "Title must be 100 characters or less"
  const DescriptionTooLong := "Description must be 500 characters or less"

  /** What the schema accepts: a title of 1 to 100 characters and a description of at
      most 500. Due date, priority and tags are constrained by their types alone. */
  predicate Acceptable(v: TaskFormData) {
    1 <= |v.title| <= 100 && |v.description| <= 500
  }

  /** The messages the schema reports for `v`, title checks first. */
  function SchemaIssues(v: TaskFormData): (issues: seq<string>)
    ensures issues == [] <==> Acceptable(v)
    ensures TitleRequired in issues <==> v.title == ""
    ensures TitleTooLong in issues <==> |v.title| > 100
    ensures DescriptionTooLong in issues <==> |v.description| > 500
    ensures |issues| <= 2
  {
    assert |TitleRequired| == 17 && |TitleTooLong| == 36 && |DescriptionTooLong| == 42;
    (if |v.title| < 1 then [TitleRequired] else [])
    + (if |v.title| > 100 then [TitleTooLong] else [])
    + (if |v.description| > 500 then [DescriptionTooLong] else [])
  }

  /** The values a form starts from, and returns to on reset: the task's own fields when
      it edits one, otherwise an empty medium-priority task without a due date. */
  function DefaultValues(task: Option<Task>): (v: TaskFormData)
    ensures task.None? ==> SchemaIssues(v) == [TitleRequired]
    ensures task.None? ==> v.title == "" && v.description == ""
    ensures task.None? ==> v.dueDate.None? && v.priority == Medium && v.tags == []
    ensures task.Some? ==> Overlay(task.value, PatchOf(v)) == task.value
  {
    match task
    case None => TaskFormData("", "", None, Medium, [])
    case Some(t) => TaskFormData(t.title, t.description, t.dueDate, t.priority, t.tags)
  }

  /** `data as Partial<Task>`: the five form fields, and nothing about identity,
      completion or creation time. */
  function PatchOf(data: TaskFormData): (patch: TaskPatch)
    ensures patch.id.None? && patch.completed.None? && patch.createdAt.None?
    ensures forall t :: Overlay(t, patch).id == t.id && Overlay(t, patch).completed == t.completed
                     && Overlay(t, patch).createdAt == t.createdAt
    ensures forall t :: Overlay(t, patch).title == data.title && Overlay(t, patch).tags == data.tags
                     && Overlay(t, patch).description == data.description
                     && Overlay(t, patch).dueDate == data.dueDate
                     && Overlay(t, patch).priority == data.priority
  {
    TaskPatch(None, Some(data.title), Some(data.description), Some(data.dueDate),
              None, Some(data.priority), None, Some(data.tags))
  }

  /** The tag list after `addTag` with `input` in the tag field: the trimmed input is
      appended unless it is blank or already listed. */
  function WithTag(tags: seq<string>, input: string): (r: seq<string>)
    ensures |tags| <= |r| <= |tags| + 1 && r[..|tags|] == tags
    ensures forall x :: x in r <==> x in tags || (x == Trim(input) && x != "")
    ensures Trim(input) != "" ==> Trim(input) in r
    ensures Trim(input) == "" || Trim(input) in tags ==> r == tags
    ensures |r| == |tags| + 1 ==> r[|tags|] == Trim(input)
  {
    var tag := Trim(input);
    if tag == "" || tag in tags then tags else tags + [tag]
  }

  /** The tag list after `removeTag(tag)`: every occurrence of `tag` dropped, the other
      tags kept in order. */
  function WithoutTag(tags: seq<string>, tag: string): (r: seq<string>)
    ensures forall x :: x in r <==> x in tags && x != tag
    ensures IsSubsequence(r, tags)
    ensures NoDuplicates(tags) ==> NoDuplicates(r)
    ensures forall x :: multiset(r)[x] == if x == tag then 0 else multiset(tags)[x]
  {
    FilterIsSubsequence(tags, (t: string) => t != tag);
    FilterMultiset(tags, (t: string) => t != tag);
    NoDuplicatesFilter(tags, tag);
    Filter(tags, (t: string) => t != tag)
  }

  lemma NoDuplicatesFilter(tags: seq<string>, tag: string)
    ensures NoDuplicates(tags) ==> NoDuplicates(Filter(tags, (t: string) => t != tag))
  {
    if NoDuplicates(tags) {
      FilterNoDuplicates(tags, (t: string) => t != tag);
    }
  }

  /** Adding a tag never lists a tag twice. */
  lemma AddTagKeepsNoDuplicates(tags: seq<string>, input: string)
    requires NoDuplicates(tags)
    ensures NoDuplicates(WithTag(tags, input))
  {
    var r := WithTag(tags, input);
    if r != tags {
      assert r == tags + [Trim(input)];
    }
  }

  /** Removing a tag that was just added, and was not listed before, restores the list. */
  lemma {:induction false} RemoveUndoesAdd(tags: seq<string>, input: string)
    requires Trim(input) != "" && Trim(input) !in tags
    ensures WithoutTag(WithTag(tags, input), Trim(input)) == tags
  {
    var tag := Trim(input);
    var p := (t: string) => t != tag;
    assert WithTag(tags, input) == tags + [tag];
    FilterAppend(tags, [tag], p);
    FilterAll(tags, p);
    assert Filter([tag], p) == [];
  }

  /** Adding the same input twice adds it once. */
  lemma AddTwice(tags: seq<string>, input: string)
    ensures WithTag(WithTag(tags, input), input) == WithTag(tags, input)
  {
  }

  /** Submitting an edit form whose values were not touched changes no task, as long as
      identifiers are unique. */
  lemma {:induction false} UntouchedEditChangesNothing(tasks: seq<Task>, task: Task)
    requires UniqueIds(tasks) && task in tasks
    ensures Updated(tasks, task.id, PatchOf(DefaultValues(Some(task)))) == tasks
  {
    var patch := PatchOf(DefaultValues(Some(task)));
    var r := Updated(tasks, task.id, patch);
    forall i | 0 <= i < |tasks| ensures r[i] == tasks[i] {
      if tasks[i].id == task.id {
        var k :| 0 <= k < |tasks| && tasks[k] == task;
        assert tasks[i] == task;
      }
    }
  }

  /** A form update keeps every task's identity, completion and creation time, and keeps
      identifiers unique. */
  lemma FormUpdateKeepsIdentity(tasks: seq<Task>, id: string, data: TaskFormData)
    ensures var r := Updated(tasks, id, PatchOf(data));
      |r| == |tasks| && forall i :: 0 <= i < |tasks| ==>
        r[i].id == tasks[i].id && r[i].completed == tasks[i].completed
        && r[i].createdAt == tasks[i].createdAt
    ensures UniqueIds(tasks) ==> UniqueIds(Updated(tasks, id, PatchOf(data)))
  {
  }

  /** One mounted form: the task it edits (none for a new task), its current values
      and the text in its tag field. */
  class Form {
    const task: Option<Task>
    var values: TaskFormData
    var tagInput: string

    constructor (task: Option<Task>)
      ensures this.task == task && values == DefaultValues(task) && tagInput == ""
    {
      this.task := task;
      values := DefaultValues(task);
      tagInput := "";
    }

    /** Typing in the tag field. */
    method SetTagInput(text: string)
      modifies this
      ensures tagInput == text && values == old(values)
    {
      tagInput := text;
    }

    /** `addTag`: a blank input is ignored; otherwise the trimmed input joins the tags
        unless already there, and the tag field is cleared either way. */
    method AddTag()
      modifies this
      ensures values == old(values).(tags := WithTag(old(values.tags), old(tagInput)))
      ensures tagInput == if Trim(old(tagInput)) == "" then old(tagInput) else ""
    {
      var tag := Trim(tagInput);
      if tag != "" {
        var current := values.tags;
        if tag !in current {
          values := values.(tags := current + [tag]);
        }
        tagInput := "";
      }
    }

    /** `removeTag`: drops the tag from the list. */
    method RemoveTag(tag: string)
      modifies this
      ensures values == old(values).(tags := WithoutTag(old(values.tags), tag))
      ensures tagInput == old(tagInput)
    {
      values := values.(tags := Filter(values.tags, (t: string) => t != tag));
    }

    /** Submitting: values the schema rejects change nothing and report the schema's
        messages; accepted values update the edited task, or add a new task with
        identifier `id` created at `now`, and then the form returns to its defaults. */
    method Submit(store: TasksProvider, id: string, now: int)
      returns (issues: seq<string>, notice: Option<Notification>)
      modifies this, store
      ensures issues == SchemaIssues(old(values))
      ensures issues != [] ==> values == old(values) && store.tasks == old(store.tasks) && notice.None?
      ensures issues == [] && task.Some? ==>
        store.tasks == Updated(old(store.tasks), task.value.id, PatchOf(old(values)))
        && notice == Some(Notification("Task updated", "The task has been successfully updated.", false))
      ensures issues == [] && task.None? ==>
        store.tasks == [CreateTask(id, now, old(values).title, old(values).description,
                                   old(values).dueDate, old(values).priority, old(values).tags)]
                       + old(store.tasks)
        && notice == Some(Notification("Task added",
                                       Quoted(old(values).title) + " has been added to your tasks.",
                                       false))
      ensures issues == [] ==> values == DefaultValues(task)
      ensures tagInput == old(tagInput)
    {
      issues := SchemaIssues(values);
      if issues != [] {
        notice := None;
        return;
      }
      if task.Some? {
        notice := store.UpdateTask(task.value.id, PatchOf(values));
      } else {
        notice := store.AddTask(values, id, now);
      }
      values := DefaultValues(task);
    }
  }
}
