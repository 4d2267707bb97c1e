/**
  What `list_tasks` shows: a message when there are no tasks, otherwise one
  line per task, in list order.
 */
module Listing {
  import opened Decimal
  import opened Tasks

  /** The list view: the empty-state message, or the task lines, in order. */
  datatype Screen = NoTasks | TaskLines(lines: seq<string>)

  /** The status mark: a check mark for a completed task, a cross otherwise. */
  function StatusMark(completed: bool): char {
    if completed then '\U{2713}' else '\U{2717}'
  }

  /** The line for one task: "ID: <id> | [<mark>] <description>". */
  function FormatLine(t: Task): string {
    "ID: " + DecimalString(t.id) + " | [" + [StatusMark(t.completed)] + "] " + t.description
  }

  /** The pieces of a task line sit at fixed offsets after the printed id. */
  lemma FormatLineLayout(t: Task)
    ensures var line, n := FormatLine(t), |DecimalString(t.id)|;
      && |line| == n + 11 + |t.description|
      && line[..4] == "ID: " && line[4..4 + n] == DecimalString(t.id)
      && line[4 + n] == ' ' && line[n + 8] == StatusMark(t.completed)
      && line[n + 11..] == t.description
  {
    var line, n := FormatLine(t), |DecimalString(t.id)|;
    assert line == "ID: " + DecimalString(t.id) + (" | [" + [StatusMark(t.completed)] + "] " + t.description);
  }

  /** The printed id holds no space, so the first space after "ID: " ends
      it: equal lines print ids of equal length. */
  lemma SameIdWidth(t: Task, u: Task)
    requires FormatLine(t) == FormatLine(u)
    ensures |DecimalString(t.id)| == |DecimalString(u.id)|
  {
    FormatLineLayout(t);
    FormatLineLayout(u);
    SpaceEndsId(FormatLine(t), DecimalString(t.id), DecimalString(u.id));
  }

  /** Two space-free ids, each followed by a space at the same place in a line,
      have the same length. */
  lemma SpaceEndsId(line: string, a: string, b: string)
    requires ' ' !in a && ' ' !in b
    requires 4 + |a| < |line| && line[4..4 + |a|] == a && line[4 + |a|] == ' '
    requires 4 + |b| < |line| && line[4..4 + |b|] == b && line[4 + |b|] == ' '
    ensures |a| == |b|
  {
    NoSpaceInId(line, a);
    NoSpaceInId(line, b);
  }

  /** The characters of a line that spell a printed id are not spaces. */
  lemma NoSpaceInId(line: string, digits: string)
    requires 4 + |digits| <= |line| && line[4..4 + |digits|] == digits && ' ' !in digits
    ensures forall k :: 4 <= k < 4 + |digits| ==> line[k] != ' '
  {
    forall k | 4 <= k < 4 + |digits| ensures line[k] != ' ' {
      assert line[k] == digits[k - 4];
    }
  }

  /** Different tasks give different lines: the line shows the id, the status
      and the description, and each can be read back from it. */
  lemma FormatLineInjective(t: Task, u: Task)
    ensures FormatLine(t) == FormatLine(u) <==> t == u
  {
    if FormatLine(t) == FormatLine(u) {
      var line := FormatLine(t);
      SameIdWidth(t, u);
      var n := |DecimalString(t.id)|;
      FormatLineLayout(t);
      FormatLineLayout(u);
      assert DecimalString(t.id) == line[4..4 + n] == DecimalString(u.id);
      DecimalStringInjective(t.id, u.id);
      assert StatusMark(t.completed) == line[n + 8] == StatusMark(u.completed);
      assert t.description == line[n + 11..] == u.description;
    }
  }

  /** The line of a task numbered 1. */
  lemma FirstTaskLine(description: string, completed: bool)
    ensures FormatLine(Task(1, description, completed)) ==
      "ID: 1 | [" + [StatusMark(completed)] + "] " + description
  {
    assert DecimalString(1) == "1" by {
      assert NatDigits(1) == [DigitChar(1)];
    }
  }

  /** The line of task 1, open and completed, with the marks written out. */
  lemma FirstTaskMarks(description: string)
    ensures FormatLine(Task(1, description, false)) == "ID: 1 | [\U{2717}] " + description
    ensures FormatLine(Task(1, description, true)) == "ID: 1 | [\U{2713}] " + description
  {
    FirstTaskLine(description, false);
    assert "ID: 1 | [" + [StatusMark(false)] + "] " == "ID: 1 | [\U{2717}] ";
    FirstTaskLine(description, true);
    assert "ID: 1 | [" + [StatusMark(true)] + "] " == "ID: 1 | [\U{2713}] ";
  }

  /** The two lines of task 1 "Buy milk", open and completed. */
  lemma BuyMilkLines()
    ensures FormatLine(Task(1, "Buy milk", false)) == "ID: 1 | [\U{2717}] Buy milk"
    ensures FormatLine(Task(1, "Buy milk", true)) == "ID: 1 | [\U{2713}] Buy milk"
  {
    FirstTaskLine("Buy milk", false);
    FirstTaskLine("Buy milk", true);
  }
}
