/**
  The task list as a value: the records kept in the task file, the outcome
  each command reports, and what each command does to the list, as pure
  functions of the list before the command. The class in module Store runs
  the same commands step by step against the file and is proved to agree
  with these functions.
 */
module Tasks {
  import opened Text

  /** One record of the task file. */
  datatype Task = Task(id: int, description: string, completed: bool)

  /** What a command reports; each constructor stands for one printed message. */
  datatype Outcome =
    | Added             // "Task added"
    | EmptyDescription  // "Task description cannot be empty"
    | Completed         // "Task <id> completed"
    | AlreadyCompleted  // "Task <id> is already marked as completed"
    | NotFound          // "Task ID <id> not found"
    | Deleted           // "Task <id> deleted"
    | Cleared           // "All tasks have been cleared"
    | Canceled          // "Operation canceled"

  /** The outcome of a command together with the task list afterwards. */
  datatype Step = Step(outcome: Outcome, tasks: seq<Task>)

  /** The ids are 1, 2, ..., N in list order. */
  predicate Contiguous(tasks: seq<Task>) {
    forall i :: 0 <= i < |tasks| ==> tasks[i].id == i + 1
  }

  /** `add_task`: a blank description is refused; otherwise the stripped
      description is appended as an open task whose id is the old length + 1. */
  function Add(tasks: seq<Task>, description: string): Step {
    var trimmed := Strip(description);
    if trimmed == [] then Step(EmptyDescription, tasks)
    else Step(Added, tasks + [Task(|tasks| + 1, trimmed, false)])
  }

  /** The position of the first task with id `id`, or -1 if there is none. */
  function FirstIndexOf(tasks: seq<Task>, id: int): (i: int)
    ensures -1 <= i < |tasks|
    ensures i >= 0 ==> tasks[i].id == id && forall k :: 0 <= k < i ==> tasks[k].id != id
    ensures i == -1 ==> forall k :: 0 <= k < |tasks| ==> tasks[k].id != id
  {
    if tasks == [] then -1
    else if tasks[0].id == id then 0
    else
      var i := FirstIndexOf(tasks[1..], id);
      if i < 0 then -1 else i + 1
  }

  /** `complete_task`: only the first task with the id is looked at; it is
      marked completed unless it already is. */
  function Complete(tasks: seq<Task>, id: int): Step {
    var i := FirstIndexOf(tasks, id);
    if i < 0 then Step(NotFound, tasks)
    else if tasks[i].completed then Step(AlreadyCompleted, tasks)
    else Step(Completed, tasks[i := tasks[i].(completed := true)])
  }

  /** The list comprehension of `delete_task`: the tasks whose id is not `id`,
      in their order. */
  function Without(tasks: seq<Task>, id: int): (kept: seq<Task>)
    ensures |kept| <= |tasks|
    ensures forall j :: 0 <= j < |kept| ==> kept[j].id != id
  {
    if tasks == [] then []
    else (if tasks[0].id == id then [] else [tasks[0]]) + Without(tasks[1..], id)
  }

  /** The renumbering loop of `delete_task`: ids become 1..N in list order,
      everything else about each task stays. */
  function Renumbered(tasks: seq<Task>): (r: seq<Task>)
    ensures |r| == |tasks| && Contiguous(r)
    ensures forall i :: 0 <= i < |r| ==>
      r[i].description == tasks[i].description && r[i].completed == tasks[i].completed
  {
    seq(|tasks|, i requires 0 <= i < |tasks| => tasks[i].(id := i + 1))
  }

  /** `delete_task`: drop every task with the id; when something was dropped,
      renumber the rest, otherwise report that the id was not found. */
  function Delete(tasks: seq<Task>, id: int): Step {
    var kept := Without(tasks, id);
    if |kept| == |tasks| then Step(NotFound, tasks)
    else Step(Deleted, Renumbered(kept))
  }

  /** `clear_all_tasks`, given the answer typed at its confirmation prompt. */
  function Clear(tasks: seq<Task>, confirmation: string): Step {
    if Lower(confirmation) == "y" then Step(Cleared, []) else Step(Canceled, tasks)
  }

  /** The commands of the command line that change the task file, with their
      arguments already parsed. */
  datatype Command =
    | AddCommand(description: string)
    | CompleteCommand(taskId: int)
    | DeleteCommand(taskId: int)
    | ClearCommand(confirmation: string)

  /** One invocation of the tool: load the list, run the command, keep the result. */
  function Apply(tasks: seq<Task>, command: Command): Step {
    match command
    case AddCommand(d) => Add(tasks, d)
    case CompleteCommand(id) => Complete(tasks, id)
    case DeleteCommand(id) => Delete(tasks, id)
    case ClearCommand(c) => Clear(tasks, c)
  }

  /** The task file after a series of invocations, one command each. */
  function Run(tasks: seq<Task>, commands: seq<Command>): seq<Task>
    decreases |commands|
  {
    if commands == [] then tasks
    else Run(Apply(tasks, commands[0]).tasks, commands[1..])
  }
}
