# todo_cli task store, modelled in Dafny

This project models the task store of todo_cli, a small command-line to-do list written in
Python. The store keeps its tasks in one JSON file. Each task has a title, a due date and a
creation time. The store can:

- add a task at the end of the list,
- list the tasks with their overdue status,
- delete every task that has a given title.

Every public operation goes through an error-handling wrapper. The wrapper turns a missing
file, a value error and any other `Exception` into a console message and a `None` result.
Operations that write hold one process-wide lock for the whole read-modify-write cycle.
Requests issued concurrently therefore take effect one after another, in an order nobody
promises.

Modules:

- `Outcomes`: what an operation ends with (`Ok`, `FileMissing`, `InvalidInput`,
  `Unexpected`), and the wrapper `SafeOperation` with the console line it prints.
- `Dates`: the `%Y-%m-%d` due-date format. It has a parser, a formatter that inverts it,
  and the order on dates.
- `Tasks`: the task record, `IsOverdue`, the listing line of one task, and the title
  filter that deletion applies.
- `Store`: the storage file and how each operation reads it. `AddEffect`, `DeleteEffect`
  and `ListEffect` give what each operation leaves in the file, ends with and prints. The
  class `TaskStore` holds the file as a field; its methods perform each operation step by
  step and are proved equal to those functions.
- `Schedule`: requests running under the lock in any order. The lemmas hold for every
  permutation of the requests, and the repository's tests appear as scenario lemmas.

The storage file is an abstraction of its bytes (`StoredFile`). It is one of:

- missing;
- present but not openable for reading, such as a path without read permission or a
  directory;
- empty;
- text that does not decode;
- a decoded list of records.

The three operations read the file in two different ways. `_load_tasks` falls back to an
empty list on a missing file (task_manager.py:101-102). `add_tasks` and `delete_task` open
the file with `"r"` themselves (task_manager.py:115, :146) and have no such fallback.
Adding to a missing file therefore reports "Error: Task file not found." and creates
nothing; it does not start a new list (`Schedule.NothingCreatesMissingFile`). Any other
failure to open the file escapes every operation as an OSError, because only
FileNotFoundError is caught (task_manager.py:101). The wrapper then reports it as
"Unexpected error" (task_manager.py:58-59).

## Model

| member | source | states |
|---|---|---|
| Outcomes.SafeOperation | task_manager.py:43-64 | a result comes back exactly on success, with the wrapped value; every failure yields no result and a console message |
| Outcomes.Console | task_manager.py:52-60 | after a failure the console has the operation's own lines plus exactly one line, the wrapper's message for that failure class; a success adds nothing |
| Outcomes.Failure | task_manager.py:52-60 | carrying a failure to another result type keeps it a failure with the same console message |
| Outcomes.SafeOperationInjective | task_manager.py:52-60 | outcomes that are reported alike are equal, so the three failure classes and their messages are told apart by the console line |
| Outcomes.ValueErrorIsSwallowed | tests/test_safe_operation.py:7-15 | a wrapped operation that raises `ValueError("Intentional Error")` returns None and prints "Invalid input: Intentional Error" |
| Dates.ParseIsoDate | task_manager.py:82 | every accepted text has the `YYYY-MM-DD` shape and names a real calendar date |
| Dates.ParseFormatted | task_manager.py:82 | parsing a formatted valid date gives that date back |
| Dates.FormatParsed | task_manager.py:82 | each accepted text is exactly the formatted form of the date it yields |
| Dates.PreviousDay | task_manager.py:83 | the day before a date is a valid date and comes earlier |
| Tasks.IsOverdue | task_manager.py:78-83 | there is a boolean exactly when the due date parses; otherwise the result is the value error naming the text and the format |
| Tasks.OverdueIffBefore | task_manager.py:78-83 | for a due date written from a calendar date, overdue is exactly "strictly before today" |
| Tasks.OverdueBoundary | task_manager.py:83 | a task due today is on track and a task due yesterday is overdue |
| Tasks.StatusLine | task_manager.py:136-139 | the listing line exists exactly when the overdue check succeeds and reads `- <title> (Due: <due date>) -> <status>`, the status being "!! Overdue" or "On track" as the check says; otherwise the result is that check's value error |
| Tasks.RemoveTitle | task_manager.py:150 | the survivors are exactly the records whose title differs, and the list never grows |
| Tasks.RemoveTitleAppend | task_manager.py:150 | filtering a concatenation filters each part in place, so survivors keep their relative order |
| Tasks.RemoveTitleCounts | task_manager.py:150 | every record keeps its multiplicity unless it has the title, in which case no copy remains |
| Tasks.RemoveTitleMiss | task_manager.py:150-154 | the length test is exact: the length is unchanged iff no record has the title, iff the list comes back unchanged |
| Tasks.RemoveTitleIdempotent | task_manager.py:150 | deleting a title a second time changes nothing |
| Tasks.RemoveTitleCommutes | task_manager.py:150 | deleting two titles gives the same records in either order |
| Tasks.RemoveTitles | task_manager.py:150 | the survivors of deleting a set of titles are exactly the records whose title is outside the set |
| Tasks.RemoveTitlesAppend | task_manager.py:150 | filtering a concatenation by a set of titles filters each part in place, so survivors keep their stored order |
| Tasks.RemoveTitleThenTitles | task_manager.py:150 | deleting one title and then a set of titles is deleting their union |
| Tasks.RemoveNoTitles | task_manager.py:150 | deleting no titles keeps every record |
| Store.LoadTasks | task_manager.py:94-102 | a missing or empty file loads as no records, a decoded list as itself, text that does not decode as a value error, and a file that cannot be opened as an unexpected error |
| Store.ReadForUpdate | task_manager.py:114-117 | adds and deletes read a missing file as the missing-file error and read any other file as loading does |
| Store.AddEffect | task_manager.py:111-125 | on a readable file the records read are kept in front, the new record is appended once, and the success line is printed; otherwise the file is untouched and the wrapper reports the read failure |
| Store.DeleteEffect | task_manager.py:142-159 | when no record has the title the file is not written and "Task not found" is printed; otherwise the file holds the filtered records and the success line is printed; a read failure leaves the file untouched and is reported |
| Store.RenderPrefix | task_manager.py:131-139 | about `Render`, the listing loop as a function: the lines printed are the status lines of a prefix of the records, in order; either every record is shown, or the next record's due date raises the value error the listing ends with |
| Store.RenderFrom | task_manager.py:136-139 | rendering from record i on is that record's line followed by the rest, or the stop at its value error |
| Store.ListEffect | task_manager.py:128-139 | listing never changes the file |
| Store.ListShowsEveryTask | task_manager.py:128-139 | when every due date parses, the listing succeeds with one status line per record in stored order, or only the no-tasks notice when there are none |
| Store.ListStopsAtBadDate | task_manager.py:136-139 | an unparsable due date at position k leaves the k lines before it printed, then the wrapper's "Invalid input" line for that date |
| Store.ListAfterAdd | tests/test_list.py:6-14 | after an add the listing succeeds with one status line per record, the old records' lines and then the new one's; that last line shows the new title, its due date, and the status decided by comparing the date with today |
| Store.DeleteTwice | task_manager.py:150-154 | deleting a title again leaves the file as the first delete did and prints "Task not found" |
| Store.DeleteReadsFiltered | task_manager.py:145-157 | after a delete of a readable file, hit or miss, the file reads as the records without that title |
| Store.FailureLeavesFile | task_manager.py:94-117 | a failed add or delete leaves the file as it was; on a missing file both report the missing-file error; on a file that cannot be opened add, delete and list all report an unexpected error; listing text that does not decode reports its value error |
| Store.PrintStatusLines | task_manager.py:136-139 | the loop prints exactly the lines the rendering gives and ends with its outcome |
| Store.TaskStore.constructor | task_manager.py:91-92 | the store is bound to the given file |
| Store.TaskStore.Load | task_manager.py:94-102 | returns what loading the current file gives |
| Store.TaskStore.AddTask | task_manager.py:111-125 | the new file, outcome and console are those of `AddEffect` on the old file |
| Store.TaskStore.ListTasks | task_manager.py:128-139 | the outcome and console are those of `ListEffect`, and the file is unchanged |
| Store.TaskStore.DeleteTask | task_manager.py:142-159 | the new file, outcome and console are those of `DeleteEffect` on the old file |
| Schedule.RunAppend | task_manager.py:37 | about `Run`, the requests applied one at a time by `Apply` as the lock serialises them: running two batches of requests one after the other is running their concatenation |
| Schedule.NothingCreatesMissingFile | task_manager.py:114-117 | no sequence of adds, deletes and listings makes a missing storage file appear |
| Schedule.AddedCount | task_manager.py:119-120 | each record is created as many times as its add request occurs |
| Schedule.AddedPermutation | task_manager.py:37 | reordering the add requests reorders the records they create and no more |
| Schedule.AddsAppendInOrder | task_manager.py:114-123 | adds run in sequence append their records after the existing ones, in the order they ran |
| Schedule.ConcurrentAddsKeepAll | task_manager.py:37 | in every order the lock admits, concurrent adds store one record per request beside the old records: length, multiset of records and set of titles all add up |
| Schedule.DeletesFilter | task_manager.py:145-157 | deletes run in sequence drop exactly the records whose title any of them names, keeping stored order |
| Schedule.ConcurrentDeletes | task_manager.py:37 | concurrent deletes give the same records in every order: those whose title no request names |
| Schedule.AddsToBlank | task_manager.py:114-123 | adding records one by one to an empty file stores exactly those records in that order |
| Schedule.AddOneScenario | tests/test_add.py:6-11 | one add to an empty file stores exactly that task |
| Schedule.DeleteOneScenario | tests/test_delete.py:6-13 | two adds, then deleting the first title, leave only the second task |
| Schedule.BulkAddScenario | tests/test_bulk.py:7-17 | three concurrent adds with distinct titles give, in every order, three records with exactly those titles |
| Schedule.DeleteManyScenario | tests/test_delete_many.py:7-18 | after three adds, deleting the first and last titles concurrently leaves only the middle task in either order |
| Schedule.OrderPreservedScenario | task_manager.py:150 | deleting the middle of three tasks keeps the other two in their stored order |

## Left out

- Logging and its rotating log file: they have no effect on the file or the console.
- The elapsed-time measurement in the wrapper: it goes only to the log.
- aiofiles and asyncio: the lock is modelled by running requests one at a time in every permutation. Partial interleavings cannot occur while the lock is held. The model does not reason about the listing's load stepping in between two requests.
- JSON encoding: the file is modelled as already decoded (`Written`) or not decodable (`Unreadable`, a value error, since a JSON decode error is a value error).
- A decoded list whose elements are not task objects is not modelled; the model's records always have all three fields. In the source:
  - `delete_task` raises a key or type error at `t["title"]` (task_manager.py:150) for an element without a title or one that is not an object.
  - `list_tasks` raises a type error at `Task(**t)` (task_manager.py:137) for an element with an unknown key or without a title or due date. An element missing only `created_at` lists fine, because that field has a default (task_manager.py:75-76).
  - `add_tasks` never looks at the elements (task_manager.py:117-120) and appends to such a list without error.
  - Each raised error would be reported as "Unexpected error".
- JSON that decodes to a value other than a list (`{}`, `0`, a string) is not modelled.
- Write failures: the model assumes every write succeeds.
- The clock: "today" and the creation time of a new task are parameters.
- Dates.ParseIsoDate: accepts only zero-padded `YYYY-MM-DD`. Python's `strptime` is more lenient in several ways the model rejects. It accepts fields without padding (`2025-1-5`) and a space before a one-digit day (`2025-01- 5`), among others.
- Tasks.IsOverdue: the value error carries one fixed message, `Tasks.DateFormatError`, naming the text and the format. Python's wording depends on the failure: for `2025-02-30` it says "day is out of range for month" and does not name the text.
- Outcomes.SafeOperation: the Python wrapper returns `None` from both a successful operation (none of them returns a value) and a failed one. The model keeps the two apart as `Some(())` and `None`.
- `_save_tasks` is never called by the modelled operations, which write inline; it is not part of this model.
- The command-line entry point main.py is not part of this model. It calls the operations without awaiting them, and has no add-many subcommand for its own test to call.
