# Task list model

A Dafny model of the command-line to-do tool in `todo.py`. The tool keeps
an ordered list of task records `{id, description, completed}` in a file.
Each invocation loads the list, runs one command on it and, when the
command succeeds, saves it back. The model covers:

- `add`: refuses a blank description; otherwise appends a new open task
  numbered length + 1, holding the stripped description.
- `complete`: marks the first task with the given id as completed. It
  reports, without saving, an id it cannot find or a task already
  completed.
- `delete`: drops every task with the id. If something was dropped, it
  renumbers the survivors 1..N in their order; if not, it reports that
  the id was not found and does not save.
- `clear`: empties the list when the confirmation answer lowercases to
  `y`.
- `list`: shows an empty-state message for an empty list, otherwise one
  line `ID: <id> | [✓ or ✗] <description>` per task.

Layout:

- `text.dfy` (module `Text`): Python's `str.strip()` (with the exact
  `str.isspace()` character set) and `str.lower()`.
- `decimal.dfy` (module `Decimal`): `str(n)` for the id printed in a list
  line, with a reading-back function that shows nothing is lost.
- `tasks.dfy` (module `Tasks`): the record, the outcome of each command
  (one constructor per message the tool prints), and each command as a
  pure function from the list before to an outcome and the list after.
- `task_properties.dfy` (module `TaskProperties`): what the commands
  promise, proved about those functions.
- `listing.dfy` (module `Listing`): the list line and the list view.
- `store.dfy` (module `Store`): class `TodoFile`. Its field `tasks` is
  the file content: reading the field is `load_tasks` and assigning it is
  `save_tasks`. The handlers copy the list, work on the copy with the
  tool's loops, and assign the field only where the tool saves. Each
  handler is proved to agree with the matching function in `Tasks`.

Integers are unbounded here, as Python's are. A task id is taken as an
already-parsed integer, and the clear confirmation as the typed string.

`delete_task` removes every record with the id (todo.py:101), not only the
first, and so does the model. `todo.py` has no deadline field and no
`update-deadline` command, so neither does the model.

## Model

| member | source | states |
|---|---|---|
| `Text.IsSpace` | todo.py:49 | reference definition: the characters Python's `str.isspace()` accepts, which `strip()` removes; its use is stated by the Strip lemmas |
| `Text.TrimLeft` | todo.py:49 | the result is a suffix of the input, preceded only by whitespace, and starts with non-whitespace |
| `Text.TrimRight` | todo.py:49 | the result is a prefix of the input, followed only by whitespace, and ends with non-whitespace |
| `Text.Strip` | todo.py:49 | `strip()` leaves no whitespace at either end, and its result is empty exactly when the input is all whitespace (the blank-description test) |
| `Text.StripPadded` | todo.py:56 | reference definition: a non-blank text with non-whitespace ends, padded on both sides by whitespace, strips back to itself |
| `Text.StripSplits` | todo.py:56 | every input is whitespace, then its stripped text, then whitespace |
| `Text.StripIdempotent` | todo.py:56 | stripping twice is stripping once, so a stored description is already stripped |
| `Text.Lower` | todo.py:114 | lowering keeps the length and lowers each character |
| `Text.LowerIsY` | todo.py:114 | `answer.lower() == "y"` holds exactly for "y" and "Y" |
| `Decimal.NatDigits` | todo.py:74 | the digits of a natural number: at least one, only digits, no leading zero |
| `Decimal.DigitsValueOfNatDigits` | todo.py:74 | the digits printed for a natural number denote that number |
| `Decimal.DecimalString` | todo.py:74 | `str(id)`: a minus sign exactly for negative ids, then digits, never a space |
| `Decimal.ParseDecimalString` | todo.py:74 | the printed id reads back as the id |
| `Decimal.DecimalStringInjective` | todo.py:74 | two ids print alike exactly when they are equal |
| `Tasks.FirstIndexOf` | todo.py:83-84 | the position of the first task with the id (all earlier ones differ), or -1 exactly when no task has it |
| `Tasks.Without` | todo.py:101 | every task the filter keeps has an id other than the one deleted, and the result is no longer than the list |
| `Tasks.Renumbered` | todo.py:105-106 | after renumbering the ids are 1..N in list order; length, descriptions and completed flags stay |
| `Tasks.Add` | todo.py:47-61 | reference definition of `add_task`; its properties are the TaskProperties lemmas on add |
| `Tasks.Complete` | todo.py:78-94 | reference definition of `complete_task`; its properties are the TaskProperties lemmas on complete |
| `Tasks.Delete` | todo.py:97-108 | reference definition of `delete_task`; its properties are the TaskProperties lemmas on delete |
| `Tasks.Clear` | todo.py:111-118 | reference definition of `clear_all_tasks`; its properties are `ClearOnlyOnYes` and the command-wide lemmas |
| `Tasks.Apply` | todo.py:151-172 | reference definition of the dispatch of one invocation to its handler; its properties are `RefusalsChangeNothing`, `SuccessesChangeTheList` and `ApplyKeepsContiguous` |
| `Tasks.Run` | todo.py:151-172 | reference definition of a series of invocations on one file; its property is `RunKeepsContiguous` |
| `TaskProperties.AddRejectsBlank` | todo.py:49-52 | add refuses exactly the all-whitespace descriptions, and a refusal leaves the list unchanged |
| `TaskProperties.AddAppendsOne` | todo.py:53-60 | a successful add keeps every earlier record and appends one open task numbered old length + 1 whose description is the stripped input, non-empty and already stripped |
| `TaskProperties.AddKeepsContiguous` | todo.py:55-59 | ids 1..N before an add are 1..N+1 after it |
| `TaskProperties.AddToEmpty` | todo.py:53-59 | adding to the empty list gives the single task 1 |
| `TaskProperties.FirstIndexOfContiguous` | todo.py:83-84 | on a list numbered 1..N the task with id k is at position k - 1, and no other id is found |
| `TaskProperties.FirstIndexOfSameIds` | todo.py:83-84 | the search depends only on the ids, position by position |
| `TaskProperties.CompleteNotFound` | todo.py:93-94 | complete reports NotFound exactly when no task has the id, and then changes nothing |
| `TaskProperties.CompleteFirstMatch` | todo.py:83-92 | complete acts on the first task with the id only: it becomes completed with its id and description kept; every other task, the length and the order stay; an already completed task is reported and nothing changes |
| `TaskProperties.CompleteTwice` | todo.py:85-91 | completing twice gives the same list as completing once, but the second report is AlreadyCompleted |
| `TaskProperties.CompleteKeepsContiguous` | todo.py:88 | completing never changes an id, so ids 1..N stay 1..N |
| `TaskProperties.WithoutKeepsOrder` | todo.py:101 | the filter's result is exactly the tasks at the positions whose id differs, in increasing position order |
| `TaskProperties.ShiftedPositions` | todo.py:101 | the kept positions of a list's tail, moved up by one, are the kept positions after its first task |
| `TaskProperties.WithoutShorter` | todo.py:101-102 | the filter drops nothing exactly when no task has the id (the not-found test) |
| `TaskProperties.WithoutNoMatch` | todo.py:101 | a list where no task has the id passes the filter unchanged |
| `TaskProperties.WithoutOnlyMatch` | todo.py:101 | when one position alone has the id, the filter removes just that position |
| `TaskProperties.DeleteNotFound` | todo.py:101-104 | delete reports NotFound exactly when no task has the id, and then changes nothing; otherwise it reports Deleted |
| `TaskProperties.DeleteRenumbers` | todo.py:101-107 | after a delete every task with the id is gone, every other task survives in its old relative order with description and completed flag kept, the list is shorter, and the survivor at position j has id j + 1 whatever the ids were before |
| `TaskProperties.DeleteFromContiguous` | todo.py:101-107 | on a list numbered 1..N, deleting task k keeps the tasks before it and moves each later task down by one, id included |
| `TaskProperties.DeleteFirstOfTwo` | todo.py:101-107 | with tasks "A" and "B", deleting task 1 leaves "B" as task 1 |
| `TaskProperties.DeleteMakesContiguous` | todo.py:105-107 | after a successful delete the ids are 1..N |
| `TaskProperties.SingleTaskLifecycle` | todo.py:47-108 | on an empty file any non-blank description is added as task 1 holding its stripped text, then completed, then reported as already completed, then deleted, leaving the empty list |
| `TaskProperties.ClearOnlyOnYes` | todo.py:113-118 | clear empties the list exactly when the answer is "y" or "Y"; any other answer cancels and changes nothing |
| `TaskProperties.RefusalsChangeNothing` | todo.py:47-118 | every refused command (blank description, id not found, already completed, canceled clear) leaves the list as it was |
| `TaskProperties.SuccessesChangeTheList` | todo.py:47-108 | every successful add, complete or delete changes the list |
| `TaskProperties.ApplyKeepsContiguous` | todo.py:153-172 | every state-changing command keeps a list numbered 1..N numbered 1..M |
| `TaskProperties.RunKeepsContiguous` | todo.py:153-172 | any series of invocations starting from a list numbered 1..N (the new empty file in particular) keeps the ids 1..M |
| `Listing.StatusMark` | todo.py:73 | reference definition: ✓ for a completed task, ✗ for an open one; its properties are the FormatLine lemmas |
| `Listing.FormatLine` | todo.py:74 | reference definition of the list line; its properties are `FormatLineLayout`, `FormatLineInjective`, `FirstTaskLine` and `FirstTaskMarks` |
| `Listing.FormatLineLayout` | todo.py:73-74 | the list line has "ID: ", the printed id, a space, the status mark and the description at fixed offsets |
| `Listing.FormatLineInjective` | todo.py:73-74 | two list lines are equal exactly when their tasks are equal |
| `Listing.FirstTaskLine` | todo.py:74 | the line of task 1 is "ID: 1", the separator, the bracketed status mark and the description |
| `Listing.FirstTaskMarks` | todo.py:73-74 | the line of task 1 is "ID: 1", the separator, ✗ when open or ✓ when completed, then the description |
| `Listing.BuyMilkLines` | todo.py:72-74 | the open and the completed task 1 "Buy milk" list as the lines with the ✗ and the ✓ mark |
| `Store.TodoFile.constructor` | todo.py:19-22 | a task file holds the given list (the empty one on the first run) |
| `Store.TodoFile.AddTask` | todo.py:47-61 | the outcome and the saved list are those of `Tasks.Add` on the loaded list; ids 1..N stay contiguous |
| `Store.TodoFile.ListTasks` | todo.py:64-75 | the empty-state view exactly for an empty file, otherwise one line per task, in file order, each line that task's line |
| `Store.TodoFile.CompleteTask` | todo.py:78-94 | the scan with early return gives the outcome and saved list of `Tasks.Complete`; ids 1..N stay contiguous |
| `Store.TodoFile.DeleteTask` | todo.py:97-108 | filter, not-found check and renumbering loop give the outcome and saved list of `Tasks.Delete`; a successful delete leaves ids 1..N |
| `Store.TodoFile.ClearAllTasks` | todo.py:111-118 | the outcome and list after clearing are those of `Tasks.Clear` on the answer given |
| `Store.AddFirstAndList` | todo.py:47-75 | `add` of a non-blank description on a new, empty file stores task 1 with the stripped text, and `list` then shows its one open line |
| `Store.CompleteFirstAndList` | todo.py:64-94 | `complete 1` on a file holding the open task 1 marks it completed, and `list` then shows its one ✓ line |
| `Store.CompleteAgainDeleteAndList` | todo.py:64-108 | on a file holding the completed task 1, `complete 1` reports it already completed, `delete 1` deletes it, and `list` shows the empty-state view |
| `Store.SingleTaskSession` | todo.py:47-108 | the whole session add, list, complete, list, complete, delete, list on a new file: the four reports in order and the three views |

## Left out

- Reading and writing `todo.json` (todo.py:17-22, 25-44) is I/O over JSON. The file is the field `TodoFile.tasks`.
- Creating a missing file is not modelled. The constructor takes the stored list, which is empty on the first run.
- The reset to an empty list on a decode error is not modelled.
- A failed save is only logged by the tool. The model treats every save as succeeding.
- Records are assumed well-formed: an integer id, a text description and a boolean flag. A hand-edited file with other shapes is out of scope.
- Logging (todo.py:7-14 and every `logging` call) is side-effect plumbing.
- Printed messages and emoji are represented by the `Outcome` constructors. The list header and separator lines are left out, and so is `print_help` (todo.py:121-144).
- The command-line entry point (todo.py:147-182) is left out. That covers reading `sys.argv`, joining the description words, the missing-argument and unknown-command messages, the exit code, and the catch-all handlers. `Tasks.Apply` takes already-parsed commands.
- `int()` parsing of an id and its `ValueError` are left out, because Python's integer syntax is foreign to the model. The handlers take an integer.
- The interactive `input()` prompt of `clear` is replaced by the answer, passed as a parameter.
- Text.Lower: lowers only the ASCII letters A-Z, not full Unicode case mapping. For the one comparison the tool makes, `Text.LowerIsY` shows nothing is lost: in Python only "y" and "Y" lower to "y", and lowering never shortens a string.
- In `delete_task` the renumbering overwrites ids in dictionaries that the loaded list also holds. That list is thrown away afterwards, so this aliasing cannot be observed. The model renumbers a sequence value.
