# Taskify core in Dafny

Taskify is a single-page to-do application. This project models its core:

- the task record and the form data (`src/types/task.ts`): module `TaskTypes`;
- the pure task utilities (`src/utils/taskUtils.ts`): module `TaskUtils`. It covers
  creating a task, the priority label and colour, filtering by status, priority and
  search term, and sorting by due date, priority, creation time or title.
- the task store behind `TasksProvider` (`src/hooks/useTasks.tsx`): module `TaskStore`.
  It covers the initial load from a saved snapshot or the four demonstration tasks,
  `addTask`, `updateTask`, `deleteTask`, `toggleTaskCompletion`, `getTask`, and the
  notifications they raise. The provider is a class whose `tasks` field the methods
  replace.
- the tag overview (`src/pages/TagsPage.tsx`): module `TagsPage`. It counts how often
  each tag occurs, orders the tags by count and attaches the tasks that carry each tag.
  The counting loop is a method with loop invariants. It is proved to produce the
  insertion-ordered keys and the counts of the JavaScript `Map`.
- the task form (`src/components/TaskForm.tsx`): module `TaskForm`. It covers the
  validation schema, the default values, adding and removing tags, and the submission
  that calls `addTask` or `updateTask` and resets the form.

Supporting modules:

- `Seqs`: `Array.prototype.filter` and the subsequence relation.
- `Sorting`: the stable `Array.prototype.sort` of ECMAScript 2019 and later. It is an
  insertion sort, proved to be a sorted, stable permutation for any consistent
  comparator.
- `Text`: ASCII `toLowerCase`, `includes`, and `trim` over the ECMAScript white-space and
  line-terminator code points.
- `Wrappers`: `Option`.

Dates are `getTime()` values, integer milliseconds. Identifiers from `generateId`, the
clock, and `String.prototype.localeCompare` are parameters.

## Model

| member | source | states |
|---|---|---|
| Seqs.Filter | src/utils/taskUtils.ts:61-79 | `filter` keeps every element the predicate accepts and only those, and never adds occurrences |
| Seqs.FilterIsSubsequence | src/utils/taskUtils.ts:61-79 | `filter` keeps the original relative order |
| Seqs.FilterAppend | src/utils/taskUtils.ts:61-79 | filtering a concatenation is concatenating the filtered parts |
| Seqs.FilterIdempotent | src/utils/taskUtils.ts:61-79 | filtering twice with one predicate is filtering once |
| Seqs.FilterCongruent | src/utils/taskUtils.ts:61-79 | predicates that agree on the elements select the same elements |
| Seqs.FilterAll | src/hooks/useTasks.tsx:103 | a predicate accepting every element returns the list unchanged |
| Seqs.FilterNoDuplicates | src/components/TaskForm.tsx:102-108 | filtering a list without duplicates gives one without duplicates |
| Seqs.FilterMultiset | src/components/TaskForm.tsx:102-108 | `filter` keeps every occurrence of an accepted value and none of a rejected one |
| Sorting.Sort | src/utils/taskUtils.ts:87-114 | `sort` returns a permutation; with a consistent comparator it is ordered, and elements the comparator ranks equal keep their input order |
| Sorting.InsertSorted | src/utils/taskUtils.ts:87-114 | inserting into an ordered list keeps it ordered |
| Sorting.InsertEqualKeys | src/utils/taskUtils.ts:87-114 | insertion places the element first among its equals and moves no other element past an equal one |
| Text.Lower | src/utils/taskUtils.ts:73-74 | `toLowerCase` keeps the length and maps each upper-case letter to its lower-case letter, leaving other characters alone |
| Text.LowerIdempotent | src/utils/taskUtils.ts:73-74 | lower-casing twice is lower-casing once, and no upper-case letter remains |
| Text.Includes | src/utils/taskUtils.ts:73-74 | `includes` holds exactly when the needle occurs at some position of the haystack |
| Text.Trim | src/components/TaskForm.tsx:93-96 | `trim` returns a contiguous part of the input with only white space before and after it, and no white space at either end of it; it is empty exactly when the input is all white space |
| Text.TrimIdempotent | src/components/TaskForm.tsx:93-96 | trimming twice is trimming once |
| TaskUtils.CreateTask | src/utils/taskUtils.ts:8-25 | a new task carries the given fields and identifier, the creation time `now`, and is not completed |
| TaskUtils.CreateTaskDefaults | src/utils/taskUtils.ts:8-14 | with only a title: empty description, no due date, medium priority, no tags |
| TaskUtils.PriorityToLabel | src/utils/taskUtils.ts:27-38 | "Low", "Medium", "High" each name exactly one priority; "Unknown" is never returned |
| TaskUtils.PriorityToColor | src/utils/taskUtils.ts:40-51 | no priority gets the muted fallback classes |
| TaskUtils.PriorityDisplayInjective | src/utils/taskUtils.ts:27-51 | distinct priorities get distinct labels and distinct colours |
| TaskUtils.PriorityValue | src/utils/taskUtils.ts:98 | low ranks 1, medium 2, high 3, each rank naming exactly one priority |
| TaskUtils.Passes | src/utils/taskUtils.ts:61-79 | the early-return predicate accepts a task exactly when its status, priority and search conditions all hold |
| TaskUtils.FilterTasks | src/utils/taskUtils.ts:53-80 | the result is an order-preserving subsequence, holds only tasks meeting every active filter, misses none that does, and is the whole list when no filter is active |
| TaskUtils.FilterTasksKeepsOnlyMatches | src/utils/taskUtils.ts:63-76 | kept tasks have the requested completion state and priority, and contain the lower-cased term in the lower-cased title or description |
| TaskUtils.FilterTasksAppend | src/utils/taskUtils.ts:61-79 | filtering works task by task: it distributes over concatenation, and keeps a single task exactly when it satisfies the filters |
| TaskUtils.FilterTasksIdempotent | src/utils/taskUtils.ts:53-80 | applying the same filters again changes nothing |
| TaskUtils.SearchIgnoresCase | src/utils/taskUtils.ts:71-76 | searching for a term or for its lower-cased form keeps the same tasks |
| TaskUtils.Compare | src/utils/taskUtils.ts:87-114 | by due date: two undated tasks tie, an undated task goes after a dated one ascending and before it descending, dated tasks go by date; by priority and by creation time: ties exactly on equal keys, otherwise by rank or time in the chosen order; by title: `localeCompare` ascending, with its arguments swapped descending |
| TaskUtils.DescendingIsSwapped | src/utils/taskUtils.ts:87-114 | every descending comparator is the ascending one with its arguments swapped |
| TaskUtils.ComparatorConsistent | src/utils/taskUtils.ts:87-114 | every comparator `sortTasks` builds is antisymmetric in sign and transitive, the title one when `localeCompare` is |
| TaskUtils.SortTasks | src/utils/taskUtils.ts:82-115 | the sorted copy is a permutation of the input |
| TaskUtils.SortTasksOrdered | src/utils/taskUtils.ts:87-114 | the result is ordered by the comparator, and tasks it ranks equal keep their input order |
| TaskUtils.SortByDueDate | src/utils/taskUtils.ts:88-95 | ascending: dated tasks by non-decreasing date, undated after all dated; descending: undated first, then dated by non-increasing date; undated tasks keep their order |
| TaskUtils.SortByDueDateOrdered | src/utils/taskUtils.ts:88-95 | the due-date comparator orders every pair of the result |
| TaskUtils.SortByDueDateStable | src/utils/taskUtils.ts:89 | undated tasks keep their input order |
| TaskUtils.SortByPriority | src/utils/taskUtils.ts:97-102 | ranks non-decreasing ascending and non-increasing descending; tasks of one priority keep their input order |
| TaskUtils.SortByCreatedAt | src/utils/taskUtils.ts:110-113 | creation times non-decreasing ascending and non-increasing descending; equal timestamps keep their input order |
| TaskUtils.DefaultSortIsNewestFirst | src/utils/taskUtils.ts:84-85 | with no sort arguments the newest task comes first |
| TaskUtils.SortByTitle | src/utils/taskUtils.ts:104-108 | ascending follows `localeCompare`; descending follows it with its arguments swapped |
| TaskStore.Find | src/hooks/useTasks.tsx:131-133 | `find` returns nothing exactly when no task has the identifier, and otherwise the first task that has it |
| TaskStore.Overlay | src/hooks/useTasks.tsx:93 | `{ ...task, ...updates }`: each supplied field replaces the task's, each absent one keeps it; an empty patch gives the task back |
| TaskStore.Updated | src/hooks/useTasks.tsx:92-94 | the `map` keeps the length, leaves tasks with other identifiers alone, overlays the patch on the matching ones, and changes nothing for an unknown identifier |
| TaskStore.Removed | src/hooks/useTasks.tsx:103 | the `filter` keeps exactly the tasks with another identifier and never lengthens the list |
| TaskStore.Toggled | src/hooks/useTasks.tsx:114-118 | the `map` keeps the length and every field but `completed`, which flips exactly on the tasks with the identifier |
| TaskStore.Revive | src/hooks/useTasks.tsx:58-62 | a loaded record keeps every field through `...task`: identifier, title, description, completion, priority, creation time and tags; its due date is absent exactly when the stored one is falsy, and otherwise the stored time |
| TaskStore.Store | src/hooks/useTasks.tsx:73 | a saved task has a falsy due date exactly when it has none, and reading the record back gives the task |
| TaskStore.StoreAll | src/hooks/useTasks.tsx:73 | the saved array has one record per task, each reading back as that task |
| TaskStore.SeedTasks | src/hooks/useTasks.tsx:19-48 | four open tasks with the given identifiers; the third is due one day from now and the fourth has no due date |
| TaskStore.InitialTasks | src/hooks/useTasks.tsx:51-69 | a readable snapshot gives its records revived one by one; a missing or unreadable one gives the four demonstration tasks |
| TaskStore.LoadAfterSave | src/hooks/useTasks.tsx:56-74 | loading what was saved gives back the same tasks, undated ones included |
| TaskStore.TasksProvider.constructor | src/hooks/useTasks.tsx:51-69 | the provider starts from the initial tasks |
| TaskStore.TasksProvider.AddTask | src/hooks/useTasks.tsx:76-89 | the new task goes first, ahead of the old list; the notification quotes its title |
| TaskStore.TasksProvider.UpdateTask | src/hooks/useTasks.tsx:91-99 | the patch is overlaid on the matching tasks, and "Task updated" is raised whether or not a task matched |
| TaskStore.TasksProvider.DeleteTask | src/hooks/useTasks.tsx:101-111 | the matching tasks are dropped; a destructive notification naming the first of them is raised exactly when one existed |
| TaskStore.TasksProvider.ToggleTaskCompletion | src/hooks/useTasks.tsx:113-129 | the matching tasks flip `completed`; a notification is raised exactly when one existed, saying "Task completed" or "Task reopened" by the first one's new state |
| TaskStore.TasksProvider.GetTask | src/hooks/useTasks.tsx:131-133 | the first task with the identifier, or nothing exactly when there is none |
| TaskStore.UpdatedEffect | src/hooks/useTasks.tsx:91-94 | supplied fields replace the matching tasks' fields, the others stay; other tasks, order and length are unchanged; an unknown identifier changes nothing |
| TaskStore.RemovedEffect | src/hooks/useTasks.tsx:101-103 | exactly the tasks with other identifiers remain, in order; the length drops by the number of matches; an unknown identifier changes nothing |
| TaskStore.RemovedLength | src/hooks/useTasks.tsx:103 | the length drops by the number of tasks with the identifier |
| TaskStore.ToggledEffect | src/hooks/useTasks.tsx:113-118 | only `completed` of the matching tasks changes; an unknown identifier changes nothing |
| TaskStore.ToggleTwice | src/hooks/useTasks.tsx:113-118 | toggling twice restores the list |
| TaskStore.ToggleNoticeMatchesNewState | src/hooks/useTasks.tsx:113-128 | after a toggle, the first matching task's completion is the new state the notification announces |
| TaskStore.OperationsKeepIdsUnique | src/hooks/useTasks.tsx:76-118 | distinct identifiers stay distinct under adding a fresh identifier, an update without an identifier, toggling and deleting |
| TaskStore.RemovedKeepsIdsUnique | src/hooks/useTasks.tsx:103 | deleting keeps identifiers distinct |
| TagsPage.Distinct | src/pages/TagsPage.tsx:14-20 | the keys of the `Map`: exactly the tags that occur, each once |
| TagsPage.CountTags | src/pages/TagsPage.tsx:14-20 | the nested loops yield the tags in the order first met, and each tag's number of occurrences |
| TagsPage.CountTaskTags | src/pages/TagsPage.tsx:17-19 | the inner loop over one task's tags extends the keys and counts kept so far by exactly that task's tags |
| TagsPage.OccurrencesIsCountMap | src/pages/TagsPage.tsx:18 | counting by successive `set` calls gives each tag's number of occurrences |
| TagsPage.ComputeTagGroups | src/pages/TagsPage.tsx:13-29 | the page's groups are the counted, sorted entries with their tasks attached |
| TagsPage.ByCountDesc | src/pages/TagsPage.tsx:23 | `b[1] - a[1]` puts `a` first exactly when its count is larger, and ranks equal counts equal |
| TagsPage.GroupsFrom | src/pages/TagsPage.tsx:22-28 | one group per entry, a permutation of the entries with counts non-increasing and equal counts in entry order, each group holding the tasks whose tags include its name |
| TagsPage.SortedGroups | src/pages/TagsPage.tsx:22-23 | groups listing the entries sorted with `b[1] - a[1]` are a permutation of them, largest count first, equal counts in entry order |
| TagsPage.Attach | src/pages/TagsPage.tsx:24-28 | each group keeps its entry's tag and count and holds exactly the tasks whose tags include the tag |
| TagsPage.ByCountDescIsComparator | src/pages/TagsPage.tsx:23 | `b[1] - a[1]` is a consistent comparator |
| TagsPage.OneGroupPerTag | src/pages/TagsPage.tsx:13-29 | one group per tag that occurs and no other; the count is the tag's number of occurrences; the tasks are those carrying the tag |
| TagsPage.GroupsAreCountedTags | src/pages/TagsPage.tsx:13-29 | every group names an occurring tag with its number of occurrences |
| TagsPage.EveryTagHasGroup | src/pages/TagsPage.tsx:13-29 | every occurring tag has a group |
| TagsPage.GroupNamesDistinct | src/pages/TagsPage.tsx:13-29 | no two groups share a name |
| TagsPage.SortedByCount | src/pages/TagsPage.tsx:22-23 | sorting the entries with `b[1] - a[1]` orders counts non-increasingly and keeps entries of equal count in their input order |
| TagsPage.GroupsOrderedByCount | src/pages/TagsPage.tsx:22-23 | counts are non-increasing; groups with equal counts keep the order in which their tags were first met |
| TagsPage.NoGroupsIffNoTags | src/pages/TagsPage.tsx:41 | there are no groups, so the page shows "No tags found", exactly when no task has a tag |
| TagsPage.CountIsTaskCount | src/pages/TagsPage.tsx:16-20 | when no task lists a tag twice, a tag's count is the number of tasks carrying it |
| TagsPage.SumOfCounts | src/pages/TagsPage.tsx:13-29 | the counts add up to the number of tags over all tasks |
| TaskForm.SchemaIssues | src/components/TaskForm.tsx:37-48 | no message exactly when the title has 1 to 100 characters and the description at most 500; each message appears exactly when its rule is broken |
| TaskForm.DefaultValues | src/components/TaskForm.tsx:61-75 | a new form has empty title and description, no due date, medium priority and no tags, and fails only on the missing title; an edit form's values put back on the task give the task itself |
| TaskForm.PatchOf | src/components/TaskForm.tsx:80 | the submitted patch sets the five form fields and never the identifier, completion or creation time |
| TaskForm.WithTag | src/components/TaskForm.tsx:92-100 | the old tags stay in place; a blank or already listed trimmed input leaves the list unchanged, otherwise the trimmed input is appended as the one new last tag |
| TaskForm.WithoutTag | src/components/TaskForm.tsx:102-108 | every occurrence of the tag is removed and every occurrence of the others kept, in order; a list without duplicates stays without |
| TaskForm.AddTagKeepsNoDuplicates | src/components/TaskForm.tsx:92-100 | adding a tag never lists a tag twice |
| TaskForm.RemoveUndoesAdd | src/components/TaskForm.tsx:92-108 | removing a tag just added, and not listed before, restores the list |
| TaskForm.AddTwice | src/components/TaskForm.tsx:92-100 | adding the same input twice adds it once |
| TaskForm.UntouchedEditChangesNothing | src/components/TaskForm.tsx:61-81 | submitting an edit form without changes leaves every task as it was, given distinct identifiers |
| TaskForm.FormUpdateKeepsIdentity | src/components/TaskForm.tsx:79-81 | a form update keeps each task's identifier, completion and creation time, and distinct identifiers stay distinct |
| TaskForm.Form.constructor | src/components/TaskForm.tsx:55-76 | a mounted form holds the default values and an empty tag field |
| TaskForm.Form.SetTagInput | src/components/TaskForm.tsx:228 | typing replaces the tag field and nothing else |
| TaskForm.Form.AddTag | src/components/TaskForm.tsx:92-100 | the tags become `WithTag` of the field; the field is cleared unless it was blank |
| TaskForm.Form.RemoveTag | src/components/TaskForm.tsx:102-108 | the tags become `WithoutTag`; the tag field is kept |
| TaskForm.Form.Submit | src/components/TaskForm.tsx:78-90 | rejected values change nothing and report the schema messages; accepted values update the edited task with "Task updated", or add a new task first with the "Task added" notification quoting its title, then the form resets to its defaults |

## Left out

- `generateId` (`src/utils/taskUtils.ts:4-6`) uses `Math.random`. Identifiers are parameters: `CreateTask`, `SeedTasks`, `AddTask` and `Submit` take them.
- `new Date()` and `Date.now()` are the clock. The current time is a parameter `now`.
- TaskStore.SeedTasks: the demonstration tasks are built once, when the module loads (`src/hooks/useTasks.tsx:19-48`). The code reads the clock separately for each due date and each creation time, so their times can differ by the few milliseconds between the reads. The model uses one `now` for all of them.
- `localStorage`: reading and `JSON.parse` are replaced by an already parsed `Snapshot`. `Missing` stands for an absent or empty entry; `Malformed` stands for a parse error or a value that `map` throws on. The `console.error` call on that path (`src/hooks/useTasks.tsx:64`) is output only and is not modelled.
- Saving on every change (`src/hooks/useTasks.tsx:72-74`) is modelled only through `Store`/`StoreAll` and the round trip `LoadAfterSave`.
- A record with missing fields is not modelled. Neither is a due date that `new Date` cannot read (an Invalid Date): all dates are integers.
- The toast library is not modelled: each operation returns its notification as a value.
- Text.Lower: only ASCII letters are lower-cased. Unicode case mapping is not modelled.
- `String.prototype.localeCompare` is a parameter, because its order depends on the locale.
- TaskUtils.SortTasksOrdered requires a consistent `localeCompare` when sorting by title. So do TaskUtils.ComparatorConsistent and TaskUtils.SortByTitle. The language leaves the order `sort` produces with an inconsistent comparator implementation-defined. The model still returns a permutation in that case (`SortTasks`).
- Number arithmetic is modelled as exact integer arithmetic. A difference of two `getTime()` values can reach 1.728e16, beyond 2^53, and JavaScript may then round it. Rounding never changes its sign and never turns a non-zero difference into zero, and `sort` uses only the sign, so `TaskUtils.Compare` orders tasks as the code does.
- TaskForm.SchemaIssues: lengths count characters (Unicode scalar values), while zod's `min` and `max` count UTF-16 code units. A title or description with characters outside the Basic Multilingual Plane, such as emoji, is measured shorter than the code measures it: 60 emoji make a title of 60 here and of 120 in the code, which the code rejects.
- Text: strings are sequences of Unicode characters, not of UTF-16 code units. `trim` and `includes` agree with the code on every string whose characters are all in the Basic Multilingual Plane.
- Patches do not model an `undefined` value supplied explicitly for a field. `Partial<Task>` from the form always supplies the five form fields.
- React mechanics are not modelled: context, `useMemo` caching, re-rendering and batched state updates. `deleteTask` and `toggleTaskCompletion` read the rendered `tasks` while the update applies to the pending list. The model treats these as the same list: no update is pending.
- Form UI is not modelled: the `onSuccess` callback (closing a dialog), the Enter key that calls `addTag`, the calendar picker and the rendering.
- Zod's issue objects are reduced to their messages.
- The other pages, the layout, the UI components, the calendar view and the theme are not part of this model.

## Notes on behaviour

- Sorting by due date in descending order puts undated tasks first. For an undated `a` the comparator returns `-1` in descending order (`src/utils/taskUtils.ts:90`), and for an undated `b` it returns `1` (`src/utils/taskUtils.ts:91`). In ascending order undated tasks come last. `TaskUtils.SortByDueDate` states both orders.
- A tag's count is its number of occurrences, not the number of tasks carrying it (`src/pages/TagsPage.tsx:16-20`). A task that lists a tag twice adds two. `TagsPage.CountIsTaskCount` proves the two numbers agree when no task lists a tag twice.
  - Adding a tag in the form never lists a tag twice (`TaskForm.AddTagKeepsNoDuplicates`).
  - An edit form keeps the tags the task was loaded with, duplicates included. A saved snapshot may also hold any tag list. So the model does not claim that tasks are free of duplicate tags.
