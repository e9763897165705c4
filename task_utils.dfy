/** The pure query functions over tasks: construction with defaults, priority display
    mappings, filtering and sorting (src/utils/taskUtils.ts). */
module TaskUtils {
  import opened Wrappers
  import opened Seqs
  import opened Sorting
  import opened Text
  import opened TaskTypes

  // ---------------------------------------------------------------- createTask

  /** `createTask`: a new task that is not completed. The identifier and the creation
      time, which the source takes from `Math.random` and the clock, are parameters;
      the optional arguments have the source's defaults. */
  function CreateTask(
    id: string,
    now: int,
    title: string,
    description: string := "",
    dueDate: Option<int> := None,
    priority: Priority := Medium,
    tags: seq<string> := []): (t: Task)
    ensures t.id == id && t.createdAt == now && !t.completed
    ensures t.title == title && t.description == description && t.dueDate == dueDate
    ensures t.priority == priority && t.tags == tags
  {
    Task(id, title, description, dueDate, false, priority, now, tags)
  }

  /** With only a title, a task has an empty description, no due date, medium priority
      and no tags. */
  lemma CreateTaskDefaults(id: string, now: int, title: string)
    ensures var t := CreateTask(id, now, title);
      t.description == "" && t.dueDate == None && t.priority == Medium && t.tags == []
      && !t.completed
  {
  }

  // ---------------------------------------------------------- priority mappings

  /** `priorityToLabel`. The source's "Unknown" default branch is unreachable: the
      priority type has exactly three values, and the match here is exhaustive. */
  function PriorityToLabel(p: Priority): (name: string)
    ensures name == "Low" <==> p == Low
    ensures name == "Medium" <==> p == Medium
    ensures name == "High" <==> p == High
    ensures name != "Unknown"
  {
    match p
    case Low => "Low"
    case Medium => "Medium"
    case High => "High"
  }

  /** `priorityToColor`: the CSS classes of a priority badge. */
  function PriorityToColor(p: Priority): (classes: string)
    ensures classes != "text-muted-foreground bg-muted border-muted-foreground/20"
  {
    match p
    case Low => "text-priority-low bg-priority-low/10 border-priority-low/20"
    case Medium => "text-priority-medium bg-priority-medium/10 border-priority-medium/20"
    case High => "text-priority-high bg-priority-high/10 border-priority-high/20"
  }

  /** Distinct priorities get distinct labels and distinct colours. */
  lemma PriorityDisplayInjective(p: Priority, q: Priority)
    ensures PriorityToLabel(p) == PriorityToLabel(q) ==> p == q
    ensures PriorityToColor(p) == PriorityToColor(q) ==> p == q
  {
    var low, medium, high := PriorityToColor(Low), PriorityToColor(Medium), PriorityToColor(High);
    assert low == "text-priority-low bg-priority-low/10 border-priority-low/20";
    assert medium == "text-priority-medium bg-priority-medium/10 border-priority-medium/20";
    assert high == "text-priority-high bg-priority-high/10 border-priority-high/20";
    assert |low| == 59 && |medium| == 68 && |high| == 62;
  }

  /** The rank that sorting by priority uses: low 1, medium 2, high 3. */
  function PriorityValue(p: Priority): (v: int)
    ensures 1 <= v <= 3
    ensures (v == 1 <==> p == Low) && (v == 2 <==> p == Medium) && (v == 3 <==> p == High)
  {
    match p
    case Low => 1
    case Medium => 2
    case High => 3
  }

  // --------------------------------------------------------------- filterTasks

  datatype Status = All | Completed | Pending

  datatype PriorityFilter = AllPriorities | Exactly(priority: Priority)

  /** The filter configuration; every field may be absent. */
  datatype Filters = Filters(
    status: Option<Status>,
    priority: Option<PriorityFilter>,
    searchTerm: Option<string>)

  /** What each filter field demands of a task, stated on its own. */
  predicate StatusHolds(status: Option<Status>, task: Task) {
    match status
    case None => true
    case Some(All) => true
    case Some(Completed) => task.completed
    case Some(Pending) => !task.completed
  }

  predicate PriorityHolds(priority: Option<PriorityFilter>, task: Task) {
    match priority
    case None => true
    case Some(AllPriorities) => true
    case Some(Exactly(p)) => task.priority == p
  }

  /** A non-empty term must occur, ignoring case, in the title or in the description. */
  ghost predicate SearchHolds(searchTerm: Option<string>, task: Task) {
    match searchTerm
    case None => true
    case Some(term) =>
      term == []
      || (exists i :: OccursAt(Lower(task.title), Lower(term), i))
      || (exists i :: OccursAt(Lower(task.description), Lower(term), i))
  }

  /** The three predicates combined with AND. */
  ghost predicate Satisfies(filters: Filters, task: Task) {
    StatusHolds(filters.status, task)
    && PriorityHolds(filters.priority, task)
    && SearchHolds(filters.searchTerm, task)
  }

  /** The predicate `filterTasks` passes to `Array.prototype.filter`, with its early
      returns in the source's order. `filters.priority` and `filters.searchTerm` are
      tested for truthiness: a present priority is a non-empty string, a search term
      is truthy when it is present and non-empty. The early returns keep exactly the
      tasks that satisfy every active filter. */
  predicate Passes(filters: Filters, task: Task): (r: bool)
    ensures r <==> Satisfies(filters, task)
  {
    if filters.status == Some(Completed) && !task.completed then false
    else if filters.status == Some(Pending) && task.completed then false
    else if filters.priority.Some? && filters.priority.value != AllPriorities
         && task.priority != filters.priority.value.priority then false
    else if filters.searchTerm.Some? && filters.searchTerm.value != ""
         && !Includes(Lower(task.title), Lower(filters.searchTerm.value))
         && !Includes(Lower(task.description), Lower(filters.searchTerm.value)) then false
    else true
  }

  /** No field constrains anything: status and priority absent or "all", search term
      absent or empty. */
  predicate Unconstrained(filters: Filters) {
    && (filters.status == None || filters.status == Some(All))
    && (filters.priority == None || filters.priority == Some(AllPriorities))
    && (filters.searchTerm == None || filters.searchTerm == Some(""))
  }

  /** `filterTasks`: the tasks that pass every active filter, in their original order. */
  function FilterTasks(tasks: seq<Task>, filters: Filters): (r: seq<Task>)
    ensures IsSubsequence(r, tasks)
    ensures forall t :: t in r ==> Satisfies(filters, t)
    ensures forall i :: 0 <= i < |tasks| && Satisfies(filters, tasks[i]) ==> tasks[i] in r
    ensures Unconstrained(filters) ==> r == tasks
  {
    var keep := (t: Task) => Passes(filters, t);
    FilterIsSubsequence(tasks, keep);
    if Unconstrained(filters) then
      FilterAll(tasks, keep);
      Filter(tasks, keep)
    else
      Filter(tasks, keep)
  }

  /** What each active filter guarantees of every task kept. */
  lemma FilterTasksKeepsOnlyMatches(tasks: seq<Task>, filters: Filters)
    ensures var r := FilterTasks(tasks, filters);
      && (filters.status == Some(Completed) ==> forall t :: t in r ==> t.completed)
      && (filters.status == Some(Pending) ==> forall t :: t in r ==> !t.completed)
      && (filters.priority.Some? && filters.priority.value.Exactly? ==>
           forall t :: t in r ==> t.priority == filters.priority.value.priority)
      && (filters.searchTerm.Some? && filters.searchTerm.value != "" ==>
           forall t :: t in r ==>
             Includes(Lower(t.title), Lower(filters.searchTerm.value))
             || Includes(Lower(t.description), Lower(filters.searchTerm.value)))
  {
  }

  /** Filtering works task by task: it distributes over concatenation and keeps a single
      task exactly when the task satisfies the filters. With the ensures of
      `FilterTasks`, this determines the result completely. */
  lemma FilterTasksAppend(a: seq<Task>, b: seq<Task>, filters: Filters)
    ensures FilterTasks(a + b, filters) == FilterTasks(a, filters) + FilterTasks(b, filters)
    ensures forall t :: FilterTasks([t], filters) == if Satisfies(filters, t) then [t] else []
  {
    FilterAppend(a, b, (t: Task) => Passes(filters, t));
    forall t ensures FilterTasks([t], filters) == if Satisfies(filters, t) then [t] else [] {
      assert [t][1..] == [];
    }
  }

  /** Filtering an already filtered list with the same filters changes nothing. */
  lemma FilterTasksIdempotent(tasks: seq<Task>, filters: Filters)
    ensures FilterTasks(FilterTasks(tasks, filters), filters) == FilterTasks(tasks, filters)
  {
    FilterIdempotent(tasks, (t: Task) => Passes(filters, t));
  }

  /** The search ignores the case of the term: searching for its lower-cased form keeps
      the same tasks. */
  lemma SearchIgnoresCase(tasks: seq<Task>, filters: Filters, term: string)
    requires filters.searchTerm == Some(term)
    ensures FilterTasks(tasks, filters.(searchTerm := Some(Lower(term))))
         == FilterTasks(tasks, filters)
  {
    LowerIdempotent(term);
    var lowered := filters.(searchTerm := Some(Lower(term)));
    assert term == [] <==> Lower(term) == [];
    FilterCongruent(tasks, (t: Task) => Passes(lowered, t), (t: Task) => Passes(filters, t));
  }

  // ----------------------------------------------------------------- sortTasks

  datatype SortBy = ByDueDate | ByPriority | ByCreatedAt | ByTitle

  datatype SortOrder = Asc | Desc

  /** The comparator `sortTasks` hands to `Array.prototype.sort`, branch for branch.
      `localeCompare` is `String.prototype.localeCompare`, a parameter because its
      order depends on the locale. */
  function Compare(sortBy: SortBy, order: SortOrder, localeCompare: (string, string) -> int,
                   a: Task, b: Task): (r: int)
    ensures sortBy == ByDueDate ==>
      && (a.dueDate.None? && b.dueDate.None? ==> r == 0)
      && (a.dueDate.None? != b.dueDate.None? ==> (r < 0 <==> (a.dueDate.Some? <==> order == Asc)))
      && (a.dueDate.None? != b.dueDate.None? ==> r != 0)
      && (a.dueDate.Some? && b.dueDate.Some? ==>
            && (r == 0 <==> a.dueDate.value == b.dueDate.value)
            && (r < 0 <==> if order == Asc then a.dueDate.value < b.dueDate.value
                           else a.dueDate.value > b.dueDate.value))
    ensures sortBy == ByPriority ==>
      && (r == 0 <==> a.priority == b.priority)
      && (r < 0 <==> if order == Asc then PriorityValue(a.priority) < PriorityValue(b.priority)
                     else PriorityValue(a.priority) > PriorityValue(b.priority))
    ensures sortBy == ByCreatedAt ==>
      && (r == 0 <==> a.createdAt == b.createdAt)
      && (r < 0 <==> if order == Asc then a.createdAt < b.createdAt else a.createdAt > b.createdAt)
    ensures sortBy == ByTitle ==>
      r == if order == Asc then localeCompare(a.title, b.title) else localeCompare(b.title, a.title)
  {
    match sortBy
    case ByDueDate =>
      if a.dueDate.None? && b.dueDate.None? then 0
      else if a.dueDate.None? then (if order == Asc then 1 else -1)
      else if b.dueDate.None? then (if order == Asc then -1 else 1)
      else if order == Asc then a.dueDate.value - b.dueDate.value
      else b.dueDate.value - a.dueDate.value
    case ByPriority =>
      if order == Asc then PriorityValue(a.priority) - PriorityValue(b.priority)
      else PriorityValue(b.priority) - PriorityValue(a.priority)
    case ByTitle =>
      if order == Asc then localeCompare(a.title, b.title) else localeCompare(b.title, a.title)
    case ByCreatedAt =>
      if order == Asc then a.createdAt - b.createdAt else b.createdAt - a.createdAt
  }

  /** A descending comparator is the ascending one with its arguments swapped. */
  lemma DescendingIsSwapped(sortBy: SortBy, localeCompare: (string, string) -> int, a: Task, b: Task)
    ensures Compare(sortBy, Desc, localeCompare, a, b) == Compare(sortBy, Asc, localeCompare, b, a)
  {
  }

  function Comparator(sortBy: SortBy, order: SortOrder, localeCompare: (string, string) -> int)
    : (Task, Task) -> int
  {
    (a: Task, b: Task) => Compare(sortBy, order, localeCompare, a, b)
  }

  /** Every comparator of `sortTasks` is consistent, the title one as far as
      `localeCompare` is. */
  lemma ComparatorConsistent(sortBy: SortBy, order: SortOrder,
                             localeCompare: (string, string) -> int)
    requires sortBy == ByTitle ==> IsComparator(localeCompare)
    ensures IsComparator(Comparator(sortBy, order, localeCompare))
  {
    var cmp := Comparator(sortBy, order, localeCompare);
    forall a: Task, b: Task, c: Task | NotAfter(cmp, a, b) && NotAfter(cmp, b, c)
      ensures NotAfter(cmp, a, c)
    {
      if sortBy == ByTitle {
        if order == Asc {
          assert NotAfter(localeCompare, a.title, b.title);
          assert NotAfter(localeCompare, b.title, c.title);
        } else {
          assert NotAfter(localeCompare, c.title, b.title);
          assert NotAfter(localeCompare, b.title, a.title);
        }
      }
    }
  }

  /** `sortTasks`: a sorted copy; the input sequence is a value and stays as it was.
      The defaults sort by creation time, newest first. */
  function SortTasks(localeCompare: (string, string) -> int, tasks: seq<Task>,
                     sortBy: SortBy := ByCreatedAt, sortOrder: SortOrder := Desc): (r: seq<Task>)
    ensures multiset(r) == multiset(tasks)
  {
    Sort(tasks, Comparator(sortBy, sortOrder, localeCompare))
  }

  /** The result is ordered by the comparator, and tasks the comparator ranks equal keep
      their input order (the sort is stable). */
  lemma SortTasksOrdered(localeCompare: (string, string) -> int, tasks: seq<Task>,
                         sortBy: SortBy, sortOrder: SortOrder)
    requires sortBy == ByTitle ==> IsComparator(localeCompare)
    ensures var cmp := Comparator(sortBy, sortOrder, localeCompare);
      var r := SortTasks(localeCompare, tasks, sortBy, sortOrder);
      && (forall i, j :: 0 <= i < j < |r| ==> cmp(r[i], r[j]) <= 0)
      && (forall x :: EqualKeys(r, x, cmp) == EqualKeys(tasks, x, cmp))
  {
    ComparatorConsistent(sortBy, sortOrder, localeCompare);
    var cmp := Comparator(sortBy, sortOrder, localeCompare);
    var r := SortTasks(localeCompare, tasks, sortBy, sortOrder);
    assert SortedBy(r, cmp);
  }

  /** A task with the given due date and priority, created at `createdAt`; the other
      fields are irrelevant to the comparators they are used with. */
  function Probe(dueDate: Option<int>, priority: Priority, createdAt: int): Task {
    Task("", "", "", dueDate, false, priority, createdAt, [])
  }

  predicate IsUndated(t: Task) {
    t.dueDate.None?
  }

  /** Sorting by due date: ascending puts dated tasks in non-decreasing date order and
      every undated task after them; descending puts every undated task first, then the
      dated ones in non-increasing date order. Undated tasks compare equal, so they keep
      their input order either way. */
  lemma SortByDueDate(localeCompare: (string, string) -> int, tasks: seq<Task>, order: SortOrder)
    ensures var r := SortTasks(localeCompare, tasks, ByDueDate, order);
      && (order == Asc ==> forall i, j :: 0 <= i < j < |r| ==>
            && (r[i].dueDate.None? ==> r[j].dueDate.None?)
            && (r[i].dueDate.Some? && r[j].dueDate.Some? ==> r[i].dueDate.value <= r[j].dueDate.value))
      && (order == Desc ==> forall i, j :: 0 <= i < j < |r| ==>
            && (r[j].dueDate.None? ==> r[i].dueDate.None?)
            && (r[i].dueDate.Some? && r[j].dueDate.Some? ==> r[i].dueDate.value >= r[j].dueDate.value))
      && Filter(r, IsUndated) == Filter(tasks, IsUndated)
  {
    var r := SortTasks(localeCompare, tasks, ByDueDate, order);
    SortByDueDateOrdered(localeCompare, tasks, order, r);
    SortByDueDateStable(localeCompare, tasks, order, r);
  }

  lemma SortByDueDateOrdered(localeCompare: (string, string) -> int, tasks: seq<Task>,
                             order: SortOrder, r: seq<Task>)
    requires r == SortTasks(localeCompare, tasks, ByDueDate, order)
    ensures forall i, j :: 0 <= i < j < |r| ==> Compare(ByDueDate, order, localeCompare, r[i], r[j]) <= 0
  {
    var cmp := Comparator(ByDueDate, order, localeCompare);
    SortTasksOrdered(localeCompare, tasks, ByDueDate, order);
    forall i, j | 0 <= i < j < |r| ensures Compare(ByDueDate, order, localeCompare, r[i], r[j]) <= 0 {
      assert cmp(r[i], r[j]) <= 0;
    }
  }

  lemma SortByDueDateStable(localeCompare: (string, string) -> int, tasks: seq<Task>,
                            order: SortOrder, r: seq<Task>)
    requires r == SortTasks(localeCompare, tasks, ByDueDate, order)
    ensures Filter(r, IsUndated) == Filter(tasks, IsUndated)
  {
    var cmp := Comparator(ByDueDate, order, localeCompare);
    SortTasksOrdered(localeCompare, tasks, ByDueDate, order);
    var x := Probe(None, Medium, 0);
    assert EqualKeys(r, x, cmp) == EqualKeys(tasks, x, cmp);
    forall y ensures IsUndated(y) <==> cmp(y, x) == 0 {
      assert cmp(y, x) == Compare(ByDueDate, order, localeCompare, y, x);
    }
    EqualKeysIsFilter(r, x, cmp, IsUndated);
    EqualKeysIsFilter(tasks, x, cmp, IsUndated);
  }

  function HasPriority(p: Priority): Task -> bool {
    (t: Task) => t.priority == p
  }

  /** Sorting by priority ranks low 1, medium 2, high 3: the ranks are non-decreasing
      ascending and non-increasing descending, and tasks of one priority keep their
      input order. */
  lemma SortByPriority(localeCompare: (string, string) -> int, tasks: seq<Task>, order: SortOrder)
    ensures var r := SortTasks(localeCompare, tasks, ByPriority, order);
      && (order == Asc ==> forall i, j :: 0 <= i < j < |r| ==>
            PriorityValue(r[i].priority) <= PriorityValue(r[j].priority))
      && (order == Desc ==> forall i, j :: 0 <= i < j < |r| ==>
            PriorityValue(r[i].priority) >= PriorityValue(r[j].priority))
      && forall p :: Filter(r, HasPriority(p)) == Filter(tasks, HasPriority(p))
  {
    var cmp := Comparator(ByPriority, order, localeCompare);
    var r := SortTasks(localeCompare, tasks, ByPriority, order);
    SortTasksOrdered(localeCompare, tasks, ByPriority, order);
    forall i, j | 0 <= i < j < |r| ensures Compare(ByPriority, order, localeCompare, r[i], r[j]) <= 0 {
      assert cmp(r[i], r[j]) <= 0;
    }
    forall p ensures Filter(r, HasPriority(p)) == Filter(tasks, HasPriority(p)) {
      SamePriorityKeepsOrder(localeCompare, tasks, order, p);
    }
  }

  lemma SamePriorityKeepsOrder(localeCompare: (string, string) -> int, tasks: seq<Task>,
                               order: SortOrder, p: Priority)
    ensures var r := SortTasks(localeCompare, tasks, ByPriority, order);
      Filter(r, HasPriority(p)) == Filter(tasks, HasPriority(p))
  {
    var cmp := Comparator(ByPriority, order, localeCompare);
    var r := SortTasks(localeCompare, tasks, ByPriority, order);
    SortTasksOrdered(localeCompare, tasks, ByPriority, order);
    var x := Probe(None, p, 0);
    assert EqualKeys(r, x, cmp) == EqualKeys(tasks, x, cmp);
    forall y ensures HasPriority(p)(y) <==> cmp(y, x) == 0 {
      assert cmp(y, x) == Compare(ByPriority, order, localeCompare, y, x);
    }
    EqualKeysIsFilter(r, x, cmp, HasPriority(p));
    EqualKeysIsFilter(tasks, x, cmp, HasPriority(p));
  }

  function CreatedAtIs(ms: int): Task -> bool {
    (t: Task) => t.createdAt == ms
  }

  /** Sorting by creation time orders by timestamp, earliest first ascending and newest
      first descending; tasks created at the same millisecond keep their input order. */
  lemma SortByCreatedAt(localeCompare: (string, string) -> int, tasks: seq<Task>, order: SortOrder)
    ensures var r := SortTasks(localeCompare, tasks, ByCreatedAt, order);
      && (order == Asc ==> forall i, j :: 0 <= i < j < |r| ==> r[i].createdAt <= r[j].createdAt)
      && (order == Desc ==> forall i, j :: 0 <= i < j < |r| ==> r[i].createdAt >= r[j].createdAt)
      && forall ms :: Filter(r, CreatedAtIs(ms)) == Filter(tasks, CreatedAtIs(ms))
  {
    var cmp := Comparator(ByCreatedAt, order, localeCompare);
    var r := SortTasks(localeCompare, tasks, ByCreatedAt, order);
    SortTasksOrdered(localeCompare, tasks, ByCreatedAt, order);
    forall i, j | 0 <= i < j < |r| ensures Compare(ByCreatedAt, order, localeCompare, r[i], r[j]) <= 0 {
      assert cmp(r[i], r[j]) <= 0;
    }
    forall ms ensures Filter(r, CreatedAtIs(ms)) == Filter(tasks, CreatedAtIs(ms)) {
      var x := Probe(None, Medium, ms);
      assert EqualKeys(r, x, cmp) == EqualKeys(tasks, x, cmp);
      forall y ensures CreatedAtIs(ms)(y) <==> cmp(y, x) == 0 {
        assert cmp(y, x) == Compare(ByCreatedAt, order, localeCompare, y, x);
      }
      EqualKeysIsFilter(r, x, cmp, CreatedAtIs(ms));
      EqualKeysIsFilter(tasks, x, cmp, CreatedAtIs(ms));
    }
  }

  /** With no sort arguments the list comes out newest first. */
  lemma DefaultSortIsNewestFirst(localeCompare: (string, string) -> int, tasks: seq<Task>)
    ensures var r := SortTasks(localeCompare, tasks);
      forall i, j :: 0 <= i < j < |r| ==> r[i].createdAt >= r[j].createdAt
  {
    SortByCreatedAt(localeCompare, tasks, Desc);
  }

  /** Sorting by title follows `localeCompare`; descending calls it with its arguments
      swapped. */
  lemma SortByTitle(localeCompare: (string, string) -> int, tasks: seq<Task>, order: SortOrder)
    requires IsComparator(localeCompare)
    ensures var r := SortTasks(localeCompare, tasks, ByTitle, order);
      && (order == Asc ==> forall i, j :: 0 <= i < j < |r| ==> localeCompare(r[i].title, r[j].title) <= 0)
      && (order == Desc ==> forall i, j :: 0 <= i < j < |r| ==> localeCompare(r[j].title, r[i].title) <= 0)
  {
    var cmp := Comparator(ByTitle, order, localeCompare);
    var r := SortTasks(localeCompare, tasks, ByTitle, order);
    SortTasksOrdered(localeCompare, tasks, ByTitle, order);
    forall i, j | 0 <= i < j < |r| ensures Compare(ByTitle, order, localeCompare, r[i], r[j]) <= 0 {
      assert cmp(r[i], r[j]) <= 0;
    }
  }
}
