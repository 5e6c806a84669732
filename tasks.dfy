/**
 * The task query engine: id generation, the three field filters, text search
 * and the overdue query over an ordered list of task records.
 */
module Tasks {
  import opened Optional
  import opened Text
  import opened Dates
  import opened Selection

  /** A task record. Each field is `None` when its key is missing from the record. */
  datatype Task = Task(
    id: Option<int>,
    title: Option<string>,
    description: Option<string>,
    priority: Option<string>,
    category: Option<string>,
    dueDate: Option<string>,
    completed: Option<bool>,
    createdAt: Option<string>)

  /** `task.get("id", 0)` */
  function IdOrZero(t: Task): int {
    t.id.GetOr(0)
  }

  /** `max(task.get("id", 0) for task in tasks)` */
  function MaxId(tasks: seq<Task>): (m: int)
    requires tasks != []
    ensures forall t :: t in tasks ==> IdOrZero(t) <= m
    ensures exists t :: t in tasks && IdOrZero(t) == m
    decreases |tasks|
  {
    if |tasks| == 1 then IdOrZero(tasks[0])
    else
      var rest := MaxId(tasks[1..]);
      assert tasks == [tasks[0]] + tasks[1..];
      if IdOrZero(tasks[0]) >= rest then IdOrZero(tasks[0]) else rest
  }

  /** The id for a new task: 1 for an empty list, otherwise one more than the
      largest id, a missing id counting as 0. */
  function GenerateUniqueId(tasks: seq<Task>): (r: int)
    ensures tasks == [] ==> r == 1
    ensures forall t :: t in tasks ==> IdOrZero(t) < r
    ensures forall t :: t in tasks ==> t.id != Some(r)
    ensures tasks != [] ==> exists t :: t in tasks && r == IdOrZero(t) + 1
  {
    if tasks == [] then 1 else MaxId(tasks) + 1
  }

  // ---------- filters ----------

  /** `task.get("priority") == priority` */
  function PriorityIs(priority: string): Task -> bool {
    (t: Task) => t.priority == Some(priority)
  }

  /** `task.get("category") == category` */
  function CategoryIs(category: string): Task -> bool {
    (t: Task) => t.category == Some(category)
  }

  /** `task.get("completed") == completed` */
  function CompletionIs(completed: bool): Task -> bool {
    (t: Task) => t.completed == Some(completed)
  }

  /** The records whose priority is present and equal to `priority`, in order. */
  function FilterTasksByPriority(tasks: seq<Task>, priority: string): (r: seq<Task>)
    ensures Selects(r, tasks, PriorityIs(priority))
    ensures forall t :: t in r <==> t in tasks && t.priority == Some(priority)
    ensures forall t: Task :: t.priority == None ==> t !in r
  {
    FilterSelects(tasks, PriorityIs(priority));
    Filter(tasks, PriorityIs(priority))
  }

  /** The records whose category is present and equal to `category`, in order. */
  function FilterTasksByCategory(tasks: seq<Task>, category: string): (r: seq<Task>)
    ensures Selects(r, tasks, CategoryIs(category))
    ensures forall t :: t in r <==> t in tasks && t.category == Some(category)
    ensures forall t: Task :: t.category == None ==> t !in r
  {
    FilterSelects(tasks, CategoryIs(category));
    Filter(tasks, CategoryIs(category))
  }

  /** The records whose completion flag is present and equal to `completed`, in
      order; a record without the flag is never selected. */
  function FilterTasksByCompletion(tasks: seq<Task>, completed: bool): (r: seq<Task>)
    ensures Selects(r, tasks, CompletionIs(completed))
    ensures forall t :: t in r <==> t in tasks && t.completed == Some(completed)
    ensures forall t: Task :: t.completed == None ==> t !in r
  {
    FilterSelects(tasks, CompletionIs(completed));
    Filter(tasks, CompletionIs(completed))
  }

  lemma {:induction false} FilterTasksByPriorityIdempotent(tasks: seq<Task>, priority: string)
    ensures FilterTasksByPriority(FilterTasksByPriority(tasks, priority), priority) == FilterTasksByPriority(tasks, priority)
  {
    FilterIdempotent(tasks, PriorityIs(priority));
  }

  lemma {:induction false} FilterTasksByCategoryIdempotent(tasks: seq<Task>, category: string)
    ensures FilterTasksByCategory(FilterTasksByCategory(tasks, category), category) == FilterTasksByCategory(tasks, category)
  {
    FilterIdempotent(tasks, CategoryIs(category));
  }

  lemma {:induction false} FilterTasksByCompletionIdempotent(tasks: seq<Task>, completed: bool)
    ensures FilterTasksByCompletion(FilterTasksByCompletion(tasks, completed), completed) == FilterTasksByCompletion(tasks, completed)
  {
    FilterIdempotent(tasks, CompletionIs(completed));
  }

  // ---------- search ----------

  /** `task.get(field, "")` */
  function TextOf(field: Option<string>): string {
    field.GetOr("")
  }

  /** `query in task.get("title", "").lower() or query in task.get("description", "").lower()`
      for an already lower-cased `query`. */
  predicate MentionsText(t: Task, query: string) {
    Contains(Lower(TextOf(t.title)), query) || Contains(Lower(TextOf(t.description)), query)
  }

  function Mentions(query: string): Task -> bool {
    (t: Task) => MentionsText(t, query)
  }

  /** The records whose title or description contains `query`, ignoring case,
      in order. */
  function SearchTasks(tasks: seq<Task>, query: string): (r: seq<Task>)
    ensures Selects(r, tasks, Mentions(Lower(query)))
    ensures forall t :: t in r <==> t in tasks && MentionsText(t, Lower(query))
  {
    var q := Lower(query);
    FilterSelects(tasks, Mentions(q));
    Filter(tasks, Mentions(q))
  }

  /** The case of the query does not matter. */
  lemma {:induction false} SearchTasksIgnoresQueryCase(tasks: seq<Task>, query: string)
    ensures SearchTasks(tasks, query) == SearchTasks(tasks, Lower(query))
  {
    LowerIdempotent(query);
  }

  /** The empty query matches every record: the whole list comes back unchanged. */
  lemma {:induction false} SearchTasksEmptyQuery(tasks: seq<Task>)
    ensures SearchTasks(tasks, "") == tasks
  {
    forall t | t in tasks ensures Mentions(Lower(""))(t) {
      ContainsEmpty(Lower(TextOf(t.title)));
    }
    FilterKeepsAll(tasks, Mentions(Lower("")));
  }

  /** A record with neither a title nor a description matches only the empty query. */
  lemma SearchTasksMissingText(tasks: seq<Task>, query: string, t: Task)
    requires t in tasks && t.title == None && t.description == None
    ensures t in SearchTasks(tasks, query) <==> query == ""
  {
    if query == "" {
      ContainsEmpty("");
    }
  }

  // ---------- overdue ----------

  /** `not task.get("completed", False)`: a missing flag counts as not completed. */
  predicate IsIncomplete(t: Task) {
    t.completed != Some(true)
  }

  /** Incomplete, with a non-empty due date that parses as a day strictly before `today`. */
  predicate IsOverdue(t: Task, today: Date) {
    IsIncomplete(t) && t.dueDate.Some? && t.dueDate.value != "" &&
    match ParseDate(t.dueDate.value)
    case Some(due) => Before(due, today)
    case None => false
  }

  /** For a due date written as `YYYY-MM-DD`, a record is overdue exactly when it
      is incomplete and that day is strictly before `today`; so a record due
      today or later is not overdue. */
  lemma OverdueIffDueBeforeToday(t: Task, today: Date, due: Date)
    requires ValidDate(due) && t.dueDate == Some(FormatDate(due))
    ensures IsOverdue(t, today) <==> IsIncomplete(t) && Before(due, today)
  {
    ParseDateIffFormatted(FormatDate(due), due);
  }

  function Incomplete(): Task -> bool {
    (t: Task) => IsIncomplete(t)
  }

  function OverdueOn(today: Date): Task -> bool {
    (t: Task) => IsOverdue(t, today)
  }

  /** What the overdue query returns, as a comprehension. */
  function Overdue(tasks: seq<Task>, today: Date): seq<Task> {
    Filter(tasks, OverdueOn(today))
  }

  /** The overdue loop: walks the records in order and appends each incomplete
      one whose due date is set, parses, and is before `today`. A due date that
      does not parse is skipped. */
  method GetOverdueTasks(tasks: seq<Task>, today: Date) returns (overdue: seq<Task>)
    ensures overdue == Overdue(tasks, today)
    ensures Selects(overdue, tasks, OverdueOn(today))
    ensures forall t :: t in overdue <==> t in tasks && IsOverdue(t, today)
  {
    overdue := [];
    for i := 0 to |tasks|
      invariant overdue == Filter(tasks[..i], OverdueOn(today))
    {
      var task := tasks[i];
      ghost var before := overdue;
      if task.completed != Some(true) {
        var dueDate := task.dueDate;
        if dueDate.Some? && dueDate.value != "" {
          var parsed := ParseDate(dueDate.value);
          match parsed {
            case Some(due) =>
              if Before(due, today) {
                overdue := overdue + [task];
              }
            case None =>
          }
        }
      }
      assert OverdueOn(today)(task) == IsOverdue(task, today);
      assert overdue == before + if IsOverdue(task, today) then [task] else [];
      assert tasks[..i + 1] == tasks[..i] + [task];
      FilterSnoc(tasks[..i], task, OverdueOn(today));
    }
    assert tasks[..|tasks|] == tasks;
    FilterSelects(tasks, OverdueOn(today));
  }

  /** Every overdue record is incomplete, so there are never more overdue
      records than incomplete ones. */
  lemma {:induction false} OverdueWithinIncomplete(tasks: seq<Task>, today: Date)
    ensures Overdue(tasks, today) == Filter(Filter(tasks, Incomplete()), OverdueOn(today))
    ensures |Overdue(tasks, today)| <= |Filter(tasks, Incomplete())|
  {
    FilterNarrower(tasks, OverdueOn(today), Incomplete());
  }

  /** Incomplete records and records flagged completed partition the list. */
  lemma {:induction false} CompletedPlusIncomplete(tasks: seq<Task>)
    ensures |FilterTasksByCompletion(tasks, true)| + |Filter(tasks, Incomplete())| == |tasks|
  {
    FilterComplementLength(tasks, CompletionIs(true), Incomplete());
  }

  /** A record without a completion flag counts as incomplete for the overdue
      query but is selected by neither `FilterTasksByCompletion(_, false)` nor
      `FilterTasksByCompletion(_, true)`: the two notions of "not completed" differ. */
  lemma UnflaggedTaskCountsOnlyAsIncomplete(t: Task)
    requires t.completed == None
    ensures Filter([t], Incomplete()) == [t]
    ensures FilterTasksByCompletion([t], false) == [] && FilterTasksByCompletion([t], true) == []
  {
  }
}
