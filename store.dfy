/**
  The command handlers of the tool, run against the task file. The file is
  an object whose field `tasks` is its current content: reading the field is
  `load_tasks`, assigning it is `save_tasks`. Each handler loads a copy,
  works on it step by step as the tool does, and saves only on the paths
  where the tool saves, so a path without a save leaves the file as it was.
 */
module Store {
  import opened Text
  import opened Tasks
  import opened Listing
  import opened TaskProperties

  class TodoFile {
    /** The content of the task file. */
    var tasks: seq<Task>

    /** A task file holding `stored`; the tool's first run creates it with the empty list. */
    constructor (stored: seq<Task>)
      ensures tasks == stored
    {
      tasks := stored;
    }

    /** `add_task`. */
    method AddTask(description: string) returns (outcome: Outcome)
      modifies this
      ensures Step(outcome, tasks) == Add(old(tasks), description)
      ensures Contiguous(old(tasks)) ==> Contiguous(tasks)
    {
      var trimmed := Strip(description);
      if trimmed == [] {
        return EmptyDescription;
      }
      var loaded := tasks;
      var task := Task(|loaded| + 1, trimmed, false);
      loaded := loaded + [task];
      if Contiguous(old(tasks)) {
        AddKeepsContiguous(old(tasks), description);
      }
      tasks := loaded;
      outcome := Added;
    }

    /** `list_tasks`: the empty-state message for an empty file, otherwise the
        line of every task, in file order. Nothing is saved. */
    method ListTasks() returns (screen: Screen)
      ensures screen == NoTasks <==> tasks == []
      ensures screen.TaskLines? ==>
        |screen.lines| == |tasks| &&
        forall i :: 0 <= i < |tasks| ==> screen.lines[i] == FormatLine(tasks[i])
    {
      var loaded := tasks;
      if loaded == [] {
        return NoTasks;
      }
      var lines: seq<string> := [];
      for i := 0 to |loaded|
        invariant |lines| == i
        invariant forall k :: 0 <= k < i ==> lines[k] == FormatLine(loaded[k])
      {
        lines := lines + [FormatLine(loaded[i])];
      }
      screen := TaskLines(lines);
    }

    /** `complete_task`: scan for the first task with the id and stop there. */
    method CompleteTask(taskId: int) returns (outcome: Outcome)
      modifies this
      ensures Step(outcome, tasks) == Complete(old(tasks), taskId)
      ensures Contiguous(old(tasks)) ==> Contiguous(tasks)
    {
      var loaded := tasks;
      var i := 0;
      while i < |loaded|
        invariant 0 <= i <= |loaded|
        invariant loaded == tasks == old(tasks)
        invariant forall k :: 0 <= k < i ==> loaded[k].id != taskId
      {
        if loaded[i].id == taskId {
          if loaded[i].completed {
            return AlreadyCompleted;
          }
          loaded := loaded[i := loaded[i].(completed := true)];
          tasks := loaded;
          return Completed;
        }
        i := i + 1;
      }
      outcome := NotFound;
    }

    /** `delete_task`: filter out the id; if nothing went, report it without
        saving; otherwise number the survivors 1..N and save them. */
    method DeleteTask(taskId: int) returns (outcome: Outcome)
      modifies this
      ensures Step(outcome, tasks) == Delete(old(tasks), taskId)
      ensures outcome == Deleted ==> Contiguous(tasks)
    {
      var loaded := tasks;
      var filtered := Without(loaded, taskId);
      if |loaded| == |filtered| {
        return NotFound;
      }
      ghost var kept := filtered;
      var i := 0;
      while i < |filtered|
        invariant 0 <= i <= |filtered| == |kept|
        invariant forall k :: 0 <= k < i ==> filtered[k] == kept[k].(id := k + 1)
        invariant forall k :: i <= k < |filtered| ==> filtered[k] == kept[k]
      {
        filtered := filtered[i := filtered[i].(id := i + 1)];
        i := i + 1;
      }
      assert filtered == Renumbered(kept);
      tasks := filtered;
      outcome := Deleted;
    }

    /** `clear_all_tasks`, given the answer typed at its prompt. */
    method ClearAllTasks(confirmation: string) returns (outcome: Outcome)
      modifies this
      ensures Step(outcome, tasks) == Clear(old(tasks), confirmation)
    {
      if Lower(confirmation) == "y" {
        tasks := [];
        outcome := Cleared;
      } else {
        outcome := Canceled;
      }
    }
  }

  /** "add <description>" on a new, empty task file, then list. */
  method AddFirstAndList(description: string) returns (file: TodoFile, outcome: Outcome, listed: Screen)
    requires !AllSpace(description)
    ensures fresh(file) && file.tasks == [Task(1, Strip(description), false)]
    ensures outcome == Added
    ensures listed == TaskLines(["ID: 1 | [\U{2717}] " + Strip(description)])
  {
    SingleTaskLifecycle(description);
    FirstTaskMarks(Strip(description));
    file := new TodoFile([]);
    outcome := file.AddTask(description);
    listed := file.ListTasks();
    assert listed.lines == [FormatLine(Task(1, Strip(description), false))];
  }

  /** "complete 1" on a file holding the open task 1, then list. */
  method CompleteFirstAndList(file: TodoFile, stored: string) returns (outcome: Outcome, listed: Screen)
    requires file.tasks == [Task(1, stored, false)]
    modifies file
    ensures file.tasks == [Task(1, stored, true)]
    ensures outcome == Completed
    ensures listed == TaskLines(["ID: 1 | [\U{2713}] " + stored])
  {
    FirstTaskMarks(stored);
    assert FirstIndexOf(file.tasks, 1) == 0;
    assert file.tasks[0 := Task(1, stored, true)] == [Task(1, stored, true)];
    outcome := file.CompleteTask(1);
    listed := file.ListTasks();
    assert listed.lines == [FormatLine(Task(1, stored, true))];
  }

  /** "complete 1" again, then "delete 1", then list, on a file holding the
      completed task 1. */
  method CompleteAgainDeleteAndList(file: TodoFile, stored: string)
      returns (again: Outcome, deleted: Outcome, listed: Screen)
    requires file.tasks == [Task(1, stored, true)]
    modifies file
    ensures file.tasks == []
    ensures again == AlreadyCompleted && deleted == Deleted
    ensures listed == NoTasks
  {
    assert FirstIndexOf(file.tasks, 1) == 0;
    assert Without(file.tasks, 1) == [] by {
      assert file.tasks[1..] == [];
    }
    again := file.CompleteTask(1);
    deleted := file.DeleteTask(1);
    listed := file.ListTasks();
  }

  /** One task's life on a new, empty task file: "add <description>", list,
      "complete 1", list, "complete 1", "delete 1", list. */
  method SingleTaskSession(description: string)
      returns (outcomes: seq<Outcome>, listedOpen: Screen, listedDone: Screen, listedEnd: Screen)
    requires !AllSpace(description)
    ensures outcomes == [Added, Completed, AlreadyCompleted, Deleted]
    ensures listedOpen == TaskLines(["ID: 1 | [\U{2717}] " + Strip(description)])
    ensures listedDone == TaskLines(["ID: 1 | [\U{2713}] " + Strip(description)])
    ensures listedEnd == NoTasks
  {
    var file, added;
    file, added, listedOpen := AddFirstAndList(description);
    var completed;
    completed, listedDone := CompleteFirstAndList(file, Strip(description));
    var again, deleted;
    again, deleted, listedEnd := CompleteAgainDeleteAndList(file, Strip(description));
    outcomes := [added, completed, again, deleted];
  }
}
