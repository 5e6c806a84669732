# Task query engine — a Dafny model

This project models the query engine of a small personal task tracker. The engine
works on an ordered list of task records. A record is a JSON object whose keys
(`id`, `title`, `description`, `priority`, `category`, `due_date`, `completed`,
`created_at`) may each be missing. The engine offers six operations, all in
`src/tasks.py`:

- `generate_unique_id` gives the id for a new task.
- `filter_tasks_by_priority`, `filter_tasks_by_category` and
  `filter_tasks_by_completion` keep the records whose field equals an argument.
- `search_tasks` does a case-insensitive substring search over title and description.
- `get_overdue_tasks` returns the incomplete records whose due date is before today.

Files (one module each):

- `optional.dfy` (`Optional`): the `Option` type. A record field that is missing is `None`.
- `text.dfy` (`Text`): `str.lower()` on ASCII letters, and the substring test `needle in haystack`.
- `dates.dfy` (`Dates`): calendar dates, a strict `YYYY-MM-DD` parser (`ParseDate`) with its formatter
  (`FormatDate`), and the "strictly earlier day" order (`Before`).
- `selection.dfy` (`Selection`): `Filter`, the meaning of a list comprehension
  `[x for x in s if keep(x)]`. `Selects` characterises it independently: an order-preserving
  subsequence (`IsSubsequence`) that holds each kept element as often as the input does and
  nothing else. The module proves that `Filter` satisfies `Selects` and is the only sequence
  that does. It also proves idempotence, concatenation, narrowing and complement facts.
- `tasks.dfy` (`Tasks`): the task record and the six operations. The filters and the search are
  comprehensions, so they are functions. `get_overdue_tasks` builds its result in a loop, so it
  is a method with a loop invariant. It is proved equal to the comprehension `Overdue`.
- `fixtures.dfy` (`TaskFixtures`): the four-record data set of the test suite, with the results
  the tests expect, proved as lemmas.

The current date (`datetime.now()`) is a parameter `today` of the overdue query.

The two "completed" tests in `src/tasks.py` differ. `filter_tasks_by_completion` compares
`task.get("completed") == completed` (`src/tasks.py:99`). A record with no `completed` key is
therefore never selected, whichever flag is asked for. The overdue query tests
`not task.get("completed", False)` (`src/tasks.py:137`), so there a missing flag counts as not
completed. `Tasks.UnflaggedTaskCountsOnlyAsIncomplete` states this contrast.

## Model

| member | source | states |
|---|---|---|
| Selection.Filter | src/tasks.py:71 | The comprehension is never longer than its input, and an element is in the result exactly when it is in the input and kept. |
| Selection.FilterSelects | src/tasks.py:71 | The comprehension keeps the input order (subsequence) and holds each kept element exactly as often as the input, and no dropped element. |
| Selection.SelectsOnlyFilter | src/tasks.py:71 | Any sequence that is an order-preserving selection of exactly the kept elements equals the comprehension, so the characterisation determines the result. |
| Selection.FilterIdempotent | src/tasks.py:71 | Filtering twice by the same condition gives the same list as filtering once. |
| Selection.FilterAppend | src/tasks.py:134-148 | Filtering a concatenation is the concatenation of the filtered parts; this is what makes the overdue loop's append-as-you-go agree with the comprehension. |
| Selection.FilterNarrower | src/tasks.py:137-142 | Filtering by a condition that implies another gives a selection of the wider selection, and never a longer one. |
| Selection.FilterComplementLength | src/tasks.py:137 | The records kept by a condition and those kept by its negation add up to the whole list. |
| Text.Lower | src/tasks.py:113 | Lower-casing keeps the length, maps each character through ASCII lower-casing and leaves no upper-case ASCII letter. |
| Text.LowerIdempotent | src/tasks.py:113 | Lower-casing an already lower-cased string changes nothing. |
| Text.ContainsEmpty | src/tasks.py:117-118 | The empty string is a substring of every string. |
| Text.ContainsOnlyIfCharOccurs | src/tasks.py:117-118 | A substring's characters all occur in the containing string. |
| Dates.ZeroPaddedOfDecimal | src/tasks.py:141 | Reading a string of digits as a number and writing it back zero-padded to the same width gives the original string. |
| Dates.DecimalOfZeroPadded | src/tasks.py:141 | Writing a number that fits in the width with zero padding and reading it back gives the number. |
| Dates.FormatDate | src/tasks.py:8 | The `%Y-%m-%d` rendering is ten characters: four digits, a dash, two digits, a dash, two digits. |
| Dates.ParseDate | src/tasks.py:141 | Any date the parser returns is a real calendar day in years 1 to 9999. |
| Dates.ParseDateIffFormatted | src/tasks.py:141 | Parsing succeeds with date d exactly when d is a valid date and the string is d formatted as `YYYY-MM-DD`. Parse and format are inverse. |
| Tasks.MaxId | src/tasks.py:57 | The maximum id, with a missing id counting as 0, is at least every record's id and is the id of some record. |
| Tasks.GenerateUniqueId | src/tasks.py:45-57 | Returns 1 for an empty list. Otherwise it returns one more than some record's id and is strictly greater than every id, so no record already has it. |
| Tasks.FilterTasksByPriority | src/tasks.py:60-71 | Keeps, in order and unchanged, exactly the records whose priority is present and equal to the argument. Records without a priority are dropped. |
| Tasks.FilterTasksByCategory | src/tasks.py:74-85 | Keeps, in order and unchanged, exactly the records whose category is present and equal to the argument. Records without a category are dropped. |
| Tasks.FilterTasksByCompletion | src/tasks.py:88-99 | Keeps, in order and unchanged, exactly the records whose completed flag is present and equal to the argument. A record without the flag is excluded for both true and false. |
| Tasks.FilterTasksByPriorityIdempotent | src/tasks.py:71 | Filtering by priority twice is filtering once. |
| Tasks.FilterTasksByCategoryIdempotent | src/tasks.py:85 | Filtering by category twice is filtering once. |
| Tasks.FilterTasksByCompletionIdempotent | src/tasks.py:99 | Filtering by completion twice is filtering once. |
| Tasks.SearchTasks | src/tasks.py:102-119 | Keeps, in order and unchanged, exactly the records whose lower-cased title or description (missing treated as "") contains the lower-cased query. |
| Tasks.SearchTasksIgnoresQueryCase | src/tasks.py:113 | Searching for a query gives the same list as searching for its lower-cased form. |
| Tasks.SearchTasksEmptyQuery | src/tasks.py:113-119 | The empty query returns the whole input unchanged. |
| Tasks.SearchTasksMissingText | src/tasks.py:117-118 | A record with neither title nor description is found by the empty query and by no other. |
| Tasks.OverdueIffDueBeforeToday | src/tasks.py:137-142 | A record due on a `YYYY-MM-DD` day is overdue exactly when it is incomplete and that day is strictly before today. A record due today or later is not overdue. |
| Tasks.GetOverdueTasks | src/tasks.py:122-148 | The loop returns exactly the comprehension `Overdue`. This is the order-preserving selection of the records that are not completed and have a non-empty due date that parses to a day strictly before today. Completed records, records without a due date and records with an unparseable due date are left out, and the call does not fail. |
| Tasks.OverdueWithinIncomplete | src/tasks.py:137-142 | Every overdue record is incomplete (absent flag counts as incomplete). The overdue list is the overdue selection of the incomplete list, so it is never longer. |
| Tasks.CompletedPlusIncomplete | src/tasks.py:137 | The records flagged completed plus the incomplete records (absent flag counts as incomplete) make up the whole list. |
| Tasks.UnflaggedTaskCountsOnlyAsIncomplete | src/tasks.py:99 | A record without a completed flag counts as incomplete for the overdue query, but the completion filter selects it for neither true nor false. |
| TaskFixtures.GenerateUniqueIdExamples | tests/test_advanced.py:26-31 | The id generator gives 5 on the test data and 1 on the empty list, the two cases the test expects. A third case added here, not taken from the tests, gives 8 on records with ids 3, none and 7: a missing id counts as 0 and does not reuse a gap. |
| TaskFixtures.FilterByPriorityExample | tests/test_basic.py:55-58 | Priority "High" selects only the third test record. |
| TaskFixtures.FilterByCategoryWorkExample | tests/test_basic.py:61-64 | Category "Work" selects the first and fourth test records, in that order. |
| TaskFixtures.FilterByCategoryPersonalExample | tests/test_advanced.py:35-42 | Category "Personal" selects only the second test record. |
| TaskFixtures.FilterByCategorySchoolExample | tests/test_advanced.py:35-42 | Category "School" selects only the third test record. |
| TaskFixtures.FilterByCompletionExample | tests/test_basic.py:67-70 | Completion true (the default argument the test relies on) selects the second and fourth test records. |
| TaskFixtures.SearchTheExample | tests/test_advanced.py:45-53 | Query "tHe" finds the first, third and fourth test records. |
| TaskFixtures.SearchTestExample | tests/test_advanced.py:45-53 | Query "TEST" finds all four test records. |
| TaskFixtures.SearchThisExample | tests/test_advanced.py:45-53 | Query "this" finds the first and third test records. |
| TaskFixtures.OverdueExcludesTomorrow | tests/test_basic.py:79-98 | Of the 1900-dated record and an incomplete record due tomorrow, only the 1900 record is overdue. |
| TaskFixtures.OverdueOfTestData | tests/test_tdd.py:102-108 | On any day after 2025-04-23 the overdue records of the test data are the first and the third. |

## Left out

- `load_tasks` and `save_tasks` (`src/tasks.py:12-42`): file I/O and JSON encoding. Their only logic is returning `[]` when the file is missing or is not valid JSON.
- `datetime.now()` (`src/tasks.py:132`): the clock. It is replaced by the parameter `today`.
- The `print` diagnostic for an unparseable due date (`src/tasks.py:144-146`): console output. The model only keeps its effect, which is that the record is skipped. The invalid-JSON diagnostic (`src/tasks.py:29`) belongs to `load_tasks` and is left out with it.
- Dates.ParseDate: is stricter than Python's `datetime.strptime(s, "%Y-%m-%d")`. That function also accepts one-digit months and days such as "2025-4-5" (and a space-padded day). The model's parser accepts only the fixed-width form.
- Text.Lower: lower-cases only the ASCII letters A-Z. Python's `str.lower()` also lower-cases non-ASCII letters, and a few of them change length.
- Field values of the wrong type: every field here has its declared type (an integer id, string texts, a boolean flag). Python would behave differently on such data. A stored `1` or `0` compares equal to `True` or `False` in the completion filter (`src/tasks.py:99`). The overdue test (`src/tasks.py:137`) is a truthiness test, so any non-zero number or non-empty string counts as completed, and a stored `null` counts as not completed. A `null` title makes `.lower()` raise `AttributeError` in the search (`src/tasks.py:117`). A `null` description raises only when the title does not contain the query, because the two tests are joined by a short-circuiting `or` (`src/tasks.py:118`).
- The default argument `completed=True` of `filter_tasks_by_completion` (`src/tasks.py:88`): `Tasks.FilterTasksByCompletion` always takes the flag explicitly. A call without the argument is the call with `true`.
- `sort_tasks`, `complete_all_tasks` and `get_task_stats`: the UI (`src/app.py`) and the tests import them, but `src/tasks.py` does not define them. `src/app.py` is not part of this model. The two facts the statistics tests rely on (overdue count at most the incomplete count, and completed plus incomplete equals total) are proved about the operations that do exist.
