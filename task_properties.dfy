/**
  What the task-list commands promise, proved about the pure transitions of
  module Tasks: which records change and which stay, that order is kept,
  that ids are 1..N after a delete, and that every refused command leaves
  the list as it was.
 */
module TaskProperties {
  import opened Text
  import opened Tasks

  // ----- add -----------------------------------------------------------

  /** A blank description is refused, and only a blank one; the list is left alone. */
  lemma AddRejectsBlank(tasks: seq<Task>, description: string)
    ensures Add(tasks, description).outcome == EmptyDescription <==> AllSpace(description)
    ensures Add(tasks, description).outcome == EmptyDescription ==> Add(tasks, description).tasks == tasks
    ensures Add(tasks, description).outcome in {EmptyDescription, Added}
  {
  }

  /** A successful add keeps every earlier record and appends exactly one:
      open, numbered length + 1, holding the description stripped of
      whitespace, which is then non-empty and already stripped. */
  lemma AddAppendsOne(tasks: seq<Task>, description: string)
    requires !AllSpace(description)
    ensures Add(tasks, description).outcome == Added
    ensures |Add(tasks, description).tasks| == |tasks| + 1
    ensures Add(tasks, description).tasks[..|tasks|] == tasks
    ensures var t := Add(tasks, description).tasks[|tasks|];
      && t.id == |tasks| + 1 && !t.completed
      && t.description == Strip(description)
      && t.description != [] && Trimmed(t.description)
      && Strip(t.description) == t.description
  {
    StripIdempotent(description);
    var r := Add(tasks, description).tasks;
    assert r[..|tasks|] == tasks;
  }

  /** Adding to a list numbered 1..N gives a list numbered 1..N+1. */
  lemma AddKeepsContiguous(tasks: seq<Task>, description: string)
    requires Contiguous(tasks)
    ensures Contiguous(Add(tasks, description).tasks)
  {
    var r := Add(tasks, description).tasks;
    if r != tasks {
      forall i | 0 <= i < |r| ensures r[i].id == i + 1 {
        if i < |tasks| {
          assert r[i] == tasks[i];
        }
      }
    }
  }

  /** Adding to the empty list gives the single task 1. */
  lemma AddToEmpty(description: string)
    requires !AllSpace(description)
    ensures Add([], description) == Step(Added, [Task(1, Strip(description), false)])
  {
  }

  // ----- complete ------------------------------------------------------

  /** On a list numbered 1..N, the task with id `id` is the one at position id - 1. */
  lemma FirstIndexOfContiguous(tasks: seq<Task>, id: int)
    requires Contiguous(tasks)
    ensures FirstIndexOf(tasks, id) == if 1 <= id <= |tasks| then id - 1 else -1
  {
    if 1 <= id <= |tasks| {
      assert tasks[id - 1].id == id;
    }
  }

  /** Two lists with the same ids at the same positions find the same first match. */
  lemma {:induction false} FirstIndexOfSameIds(a: seq<Task>, b: seq<Task>, id: int)
    requires |a| == |b|
    requires forall k :: 0 <= k < |a| ==> a[k].id == b[k].id
    ensures FirstIndexOf(a, id) == FirstIndexOf(b, id)
  {
    if a != [] && a[0].id != id {
      FirstIndexOfSameIds(a[1..], b[1..], id);
    }
  }

  /** An id no task has is reported, and nothing changes; an id some task has
      is never reported as not found. */
  lemma CompleteNotFound(tasks: seq<Task>, id: int)
    ensures Complete(tasks, id).outcome == NotFound <==>
      forall k :: 0 <= k < |tasks| ==> tasks[k].id != id
    ensures Complete(tasks, id).outcome == NotFound ==> Complete(tasks, id).tasks == tasks
  {
  }

  /** Completing acts on the first task with the id, and on nothing else: that
      task keeps its id and description and becomes completed, all other
      tasks, the length and the order stay; if it was already completed, the
      list is unchanged and this is reported. */
  lemma CompleteFirstMatch(tasks: seq<Task>, id: int, i: int)
    requires 0 <= i < |tasks| && tasks[i].id == id
    requires forall k :: 0 <= k < i ==> tasks[k].id != id
    ensures |Complete(tasks, id).tasks| == |tasks|
    ensures Complete(tasks, id).tasks[i] == Task(tasks[i].id, tasks[i].description, true)
    ensures forall k :: 0 <= k < |tasks| && k != i ==> Complete(tasks, id).tasks[k] == tasks[k]
    ensures Complete(tasks, id).outcome == if tasks[i].completed then AlreadyCompleted else Completed
    ensures tasks[i].completed ==> Complete(tasks, id).tasks == tasks
  {
    assert FirstIndexOf(tasks, id) == i;
  }

  /** Completing twice leaves the list as completing once does, but the second
      call reports that the task was already completed. */
  lemma CompleteTwice(tasks: seq<Task>, id: int)
    ensures Complete(Complete(tasks, id).tasks, id).tasks == Complete(tasks, id).tasks
    ensures Complete(Complete(tasks, id).tasks, id).outcome ==
      if Complete(tasks, id).outcome == Completed then AlreadyCompleted
      else Complete(tasks, id).outcome
  {
    var once := Complete(tasks, id).tasks;
    FirstIndexOfSameIds(tasks, once, id);
  }

  /** Completing never touches an id, so a list numbered 1..N stays so. */
  lemma CompleteKeepsContiguous(tasks: seq<Task>, id: int)
    requires Contiguous(tasks)
    ensures Contiguous(Complete(tasks, id).tasks)
  {
  }

  // ----- delete --------------------------------------------------------

  /** `positions` lists, in increasing order, exactly the positions of `tasks`
      whose id is not `id`. */
  ghost predicate KeptPositions(tasks: seq<Task>, id: int, positions: seq<int>) {
    && (forall j :: 0 <= j < |positions| ==> 0 <= positions[j] < |tasks| && tasks[positions[j]].id != id)
    && (forall j, j' :: 0 <= j < j' < |positions| ==> positions[j] < positions[j'])
    && (forall k :: 0 <= k < |tasks| && tasks[k].id != id ==> k in positions)
  }

  /** `w` is made of the tasks of `tasks` at `positions`, in that order. */
  ghost predicate Picks(w: seq<Task>, tasks: seq<Task>, positions: seq<int>) {
    && |w| == |positions|
    && forall j :: 0 <= j < |positions| ==> 0 <= positions[j] < |tasks| && w[j] == tasks[positions[j]]
  }

  /** The filter keeps exactly the tasks whose id differs, in their order. */
  lemma {:induction false} WithoutKeepsOrder(tasks: seq<Task>, id: int) returns (positions: seq<int>)
    ensures KeptPositions(tasks, id, positions)
    ensures Picks(Without(tasks, id), tasks, positions)
  {
    if tasks == [] {
      return [];
    }
    var tail := tasks[1..];
    var rest := WithoutKeepsOrder(tail, id);
    var shifted := ShiftedPositions(tasks, id, rest);
    var w := Without(tail, id);
    PicksShifted(w, tasks, rest, shifted);
    if tasks[0].id == id {
      assert Without(tasks, id) == w;
      positions := shifted;
    } else {
      assert Without(tasks, id) == [tasks[0]] + w;
      positions := [0] + shifted;
      KeptPositionsCons(tasks, id, shifted);
      PicksCons(w, tasks, shifted);
    }
  }

  /** Moving the positions of a tail up by one picks the same tasks from the whole list. */
  lemma PicksShifted(w: seq<Task>, tasks: seq<Task>, rest: seq<int>, shifted: seq<int>)
    requires tasks != []
    requires Picks(w, tasks[1..], rest)
    requires |shifted| == |rest| && forall j :: 0 <= j < |rest| ==> shifted[j] == rest[j] + 1
    ensures Picks(w, tasks, shifted)
  {
    forall j | 0 <= j < |shifted| ensures w[j] == tasks[shifted[j]] {
      assert tasks[1..][rest[j]] == tasks[rest[j] + 1];
    }
  }

  /** Putting the first task in front of what was picked from the rest of the list. */
  lemma PicksCons(w: seq<Task>, tasks: seq<Task>, shifted: seq<int>)
    requires tasks != []
    requires Picks(w, tasks, shifted)
    ensures Picks([tasks[0]] + w, tasks, [0] + shifted)
  {
    var w', p := [tasks[0]] + w, [0] + shifted;
    forall j | 0 <= j < |p| ensures 0 <= p[j] < |tasks| && w'[j] == tasks[p[j]] {
      if j > 0 {
        assert p[j] == shifted[j - 1] && w'[j] == w[j - 1];
      }
    }
  }

  /** Position 0 kept before the kept positions of the rest of the list. */
  lemma KeptPositionsCons(tasks: seq<Task>, id: int, shifted: seq<int>)
    requires tasks != [] && tasks[0].id != id
    requires forall j :: 0 <= j < |shifted| ==> 1 <= shifted[j] < |tasks| && tasks[shifted[j]].id != id
    requires forall j, j' :: 0 <= j < j' < |shifted| ==> shifted[j] < shifted[j']
    requires forall k :: 1 <= k < |tasks| && tasks[k].id != id ==> k in shifted
    ensures KeptPositions(tasks, id, [0] + shifted)
  {
    var p := [0] + shifted;
    forall j, j' | 0 <= j < j' < |p| ensures p[j] < p[j'] {
      assert p[j'] == shifted[j' - 1];
      if j > 0 {
        assert p[j] == shifted[j - 1];
      }
    }
    forall j | 0 <= j < |p| ensures 0 <= p[j] < |tasks| && tasks[p[j]].id != id {
      if j > 0 {
        assert p[j] == shifted[j - 1];
      }
    }
    forall k | 0 <= k < |tasks| && tasks[k].id != id ensures k in p {
      if k > 0 {
        assert k in shifted;
      }
    }
  }

  /** The kept positions of the tail of a list, moved up by one, are the kept
      positions of the list after its first task. */
  lemma ShiftedPositions(tasks: seq<Task>, id: int, rest: seq<int>) returns (shifted: seq<int>)
    requires tasks != []
    requires KeptPositions(tasks[1..], id, rest)
    ensures |shifted| == |rest| && forall j :: 0 <= j < |rest| ==> shifted[j] == rest[j] + 1
    ensures forall j :: 0 <= j < |shifted| ==> 1 <= shifted[j] < |tasks| && tasks[shifted[j]].id != id
    ensures forall j, j' :: 0 <= j < j' < |shifted| ==> shifted[j] < shifted[j']
    ensures forall k :: 1 <= k < |tasks| && tasks[k].id != id ==> k in shifted
    ensures tasks[0].id == id ==> KeptPositions(tasks, id, shifted)
  {
    shifted := seq(|rest|, j requires 0 <= j < |rest| => rest[j] + 1);
    forall j | 0 <= j < |shifted| ensures tasks[shifted[j]].id != id {
      assert tasks[shifted[j]] == tasks[1..][rest[j]];
    }
    forall k | 1 <= k < |tasks| && tasks[k].id != id
      ensures k in shifted
    {
      assert tasks[1..][k - 1].id != id;
      var j :| 0 <= j < |rest| && rest[j] == k - 1;
      assert shifted[j] == k;
    }
  }

  /** The filter drops nothing exactly when no task has the id. */
  lemma {:induction false} WithoutShorter(tasks: seq<Task>, id: int)
    ensures |Without(tasks, id)| == |tasks| <==> forall k :: 0 <= k < |tasks| ==> tasks[k].id != id
  {
    if tasks != [] {
      WithoutShorter(tasks[1..], id);
      assert forall k :: 1 <= k < |tasks| ==> tasks[k] == tasks[1..][k - 1];
    }
  }

  /** A list without the id is left as it is by the filter. */
  lemma {:induction false} WithoutNoMatch(tasks: seq<Task>, id: int)
    requires forall k :: 0 <= k < |tasks| ==> tasks[k].id != id
    ensures Without(tasks, id) == tasks
  {
    if tasks != [] {
      WithoutNoMatch(tasks[1..], id);
    }
  }

  /** An id no task has is reported and nothing is saved; an id some task has
      is always deleted. */
  lemma DeleteNotFound(tasks: seq<Task>, id: int)
    ensures Delete(tasks, id).outcome == NotFound <==>
      forall k :: 0 <= k < |tasks| ==> tasks[k].id != id
    ensures Delete(tasks, id).outcome == NotFound ==> Delete(tasks, id).tasks == tasks
    ensures Delete(tasks, id).outcome in {NotFound, Deleted}
  {
    WithoutShorter(tasks, id);
  }

  /** After deleting an id some task has: every task with that id is gone,
      every other task survives in its old relative order with its
      description and completion flag, and the survivor at position j has
      id j + 1, whatever the ids were before. */
  lemma DeleteRenumbers(tasks: seq<Task>, id: int) returns (positions: seq<int>)
    requires exists k :: 0 <= k < |tasks| && tasks[k].id == id
    ensures Delete(tasks, id).outcome == Deleted
    ensures KeptPositions(tasks, id, positions)
    ensures |Delete(tasks, id).tasks| == |positions| < |tasks|
    ensures Contiguous(Delete(tasks, id).tasks)
    ensures forall j :: 0 <= j < |positions| ==>
      Delete(tasks, id).tasks[j] == tasks[positions[j]].(id := j + 1)
  {
    WithoutShorter(tasks, id);
    positions := WithoutKeepsOrder(tasks, id);
  }

  /** When the task at position i is the only one with the id, the filter
      removes just that position. */
  lemma {:induction false} WithoutOnlyMatch(tasks: seq<Task>, id: int, i: int)
    requires 0 <= i < |tasks| && tasks[i].id == id
    requires forall k :: 0 <= k < |tasks| && k != i ==> tasks[k].id != id
    ensures Without(tasks, id) == tasks[..i] + tasks[i + 1..]
  {
    var tail := tasks[1..];
    if i == 0 {
      forall k | 0 <= k < |tail| ensures tail[k].id != id {
        assert tail[k] == tasks[k + 1];
      }
      WithoutNoMatch(tail, id);
      assert tasks[..0] + tasks[1..] == tail;
    } else {
      forall k | 0 <= k < |tail| && k != i - 1 ensures tail[k].id != id {
        assert tail[k] == tasks[k + 1];
      }
      WithoutOnlyMatch(tail, id, i - 1);
      assert Without(tasks, id) == [tasks[0]] + Without(tail, id);
      assert tasks[..i] == [tasks[0]] + tail[..i - 1];
      assert tasks[i + 1..] == tail[i..];
      assert [tasks[0]] + (tail[..i - 1] + tail[i..]) == tasks[..i] + tasks[i + 1..];
    }
  }

  /** On a list numbered 1..N, deleting task k keeps the tasks before it as
      they are and moves every later task down by one, id included. */
  lemma DeleteFromContiguous(tasks: seq<Task>, k: int)
    requires Contiguous(tasks) && 1 <= k <= |tasks|
    ensures Delete(tasks, k).outcome == Deleted
    ensures |Delete(tasks, k).tasks| == |tasks| - 1
    ensures forall j :: 0 <= j < k - 1 ==> Delete(tasks, k).tasks[j] == tasks[j]
    ensures forall j :: k - 1 <= j < |tasks| - 1 ==>
      Delete(tasks, k).tasks[j] == tasks[j + 1].(id := tasks[j + 1].id - 1)
  {
    var kept := tasks[..k - 1] + tasks[k..];
    WithoutOnlyMatch(tasks, k, k - 1);
    assert Without(tasks, k) == kept;
    assert |kept| == |tasks| - 1;
    var r := Delete(tasks, k).tasks;
    assert r == Renumbered(kept);
    forall j | 0 <= j < k - 1 ensures r[j] == tasks[j] {
      assert kept[j] == tasks[j];
    }
    forall j | k - 1 <= j < |tasks| - 1 ensures r[j] == tasks[j + 1].(id := tasks[j + 1].id - 1) {
      assert kept[j] == tasks[j + 1];
    }
  }

  /** The example of two tasks "A" and "B": deleting task 1 leaves "B" as task 1. */
  lemma DeleteFirstOfTwo()
    ensures Delete([Task(1, "A", false), Task(2, "B", false)], 1) == Step(Deleted, [Task(1, "B", false)])
  {
    var tasks := [Task(1, "A", false), Task(2, "B", false)];
    assert tasks[1..] == [Task(2, "B", false)];
    assert Without(tasks, 1) == [Task(2, "B", false)];
  }

  /** Deleting leaves a list numbered 1..N, whatever the ids were before. */
  lemma DeleteMakesContiguous(tasks: seq<Task>, id: int)
    ensures Delete(tasks, id).outcome == Deleted ==> Contiguous(Delete(tasks, id).tasks)
  {
  }

  /** The life of a single task on an empty file: added as task 1 with its
      stripped description, completed, reported as already completed, deleted. */
  lemma SingleTaskLifecycle(description: string)
    requires !AllSpace(description)
    ensures Add([], description) == Step(Added, [Task(1, Strip(description), false)])
    ensures Complete([Task(1, Strip(description), false)], 1) == Step(Completed, [Task(1, Strip(description), true)])
    ensures Complete([Task(1, Strip(description), true)], 1) == Step(AlreadyCompleted, [Task(1, Strip(description), true)])
    ensures Delete([Task(1, Strip(description), true)], 1) == Step(Deleted, [])
  {
    var open, done := Task(1, Strip(description), false), Task(1, Strip(description), true);
    assert [] + [open] == [open];
    assert Complete([open], 1) == Step(Completed, [done]) by {
      assert FirstIndexOf([open], 1) == 0;
      assert [open][0 := done] == [done];
    }
    assert Complete([done], 1) == Step(AlreadyCompleted, [done]) by {
      assert FirstIndexOf([done], 1) == 0;
    }
    assert Delete([done], 1) == Step(Deleted, []) by {
      assert [done][1..] == [];
      assert Without([done], 1) == [];
    }
  }

  // ----- clear ---------------------------------------------------------

  /** The list is emptied exactly when the answer is "y" or "Y"; any other
      answer cancels and changes nothing. */
  lemma ClearOnlyOnYes(tasks: seq<Task>, confirmation: string)
    ensures Clear(tasks, confirmation) ==
      if confirmation == "y" || confirmation == "Y" then Step(Cleared, [])
      else Step(Canceled, tasks)
  {
    LowerIsY(confirmation);
  }

  // ----- the commands together ------------------------------------------

  /** Every refusal (a blank description, an id not found, a task already
      completed, a canceled clear) leaves the list exactly as it was. */
  lemma RefusalsChangeNothing(tasks: seq<Task>, command: Command)
    requires Apply(tasks, command).outcome in {EmptyDescription, NotFound, AlreadyCompleted, Canceled}
    ensures Apply(tasks, command).tasks == tasks
  {
  }

  /** Every successful add, complete or delete changes the list. */
  lemma SuccessesChangeTheList(tasks: seq<Task>, command: Command)
    requires Apply(tasks, command).outcome in {Added, Completed, Deleted}
    ensures Apply(tasks, command).tasks != tasks
  {
    match command
    case AddCommand(_) =>
      assert |Apply(tasks, command).tasks| == |tasks| + 1;
    case CompleteCommand(id) =>
      var i := FirstIndexOf(tasks, id);
      assert Apply(tasks, command).tasks[i].completed != tasks[i].completed;
    case DeleteCommand(id) =>
      assert |Apply(tasks, command).tasks| < |tasks|;
    case ClearCommand(_) =>
  }

  /** Every command turns a list numbered 1..N into a list numbered 1..M. */
  lemma ApplyKeepsContiguous(tasks: seq<Task>, command: Command)
    requires Contiguous(tasks)
    ensures Contiguous(Apply(tasks, command).tasks)
  {
    match command
    case AddCommand(d) => AddKeepsContiguous(tasks, d);
    case CompleteCommand(id) => CompleteKeepsContiguous(tasks, id);
    case DeleteCommand(id) => DeleteMakesContiguous(tasks, id);
    case ClearCommand(c) =>
  }

  /** However many commands run one after another, a list numbered 1..N,
      the empty file in particular, stays numbered 1..M. */
  lemma {:induction false} RunKeepsContiguous(tasks: seq<Task>, commands: seq<Command>)
    requires Contiguous(tasks)
    ensures Contiguous(Run(tasks, commands))
    decreases |commands|
  {
    if commands != [] {
      ApplyKeepsContiguous(tasks, commands[0]);
      RunKeepsContiguous(Apply(tasks, commands[0]).tasks, commands[1..]);
    }
  }
}
