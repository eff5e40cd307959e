/** The in-memory task list that the menu owns and that add_task and
    update_status change in place. */
module Registry {
  import opened Text
  import opened Tasks
  import opened Report

  const TasksAdded := "Task(s) added."
  const NothingToUpdate := "No tasks to update."
  const StatusUpdated := "Status updated."

  class TaskList {
    var tasks: seq<Task>

    constructor (initial: seq<Task>)
      ensures tasks == initial
    {
      tasks := initial;
    }

    /** add_task, given the line the user typed and today's date: one task per
        comma-separated segment of the trimmed line, appended in order; nothing
        at all for a blank line. Returns what it prints. */
    method AddTasks(text: string, today: string) returns (printed: seq<string>)
      modifies this
      ensures tasks == old(tasks) + NewTasks(text, today)
      ensures printed == if Strip(text) == [] then [] else [TasksAdded]
    {
      var t := Strip(text);
      if t == [] {
        return [];
      }
      var segs := Split(t, ',');
      ghost var added := seq(|segs|, j requires 0 <= j < |segs| => Task(Strip(segs[j]), today, 0));
      var i := 0;
      while i < |segs|
        invariant 0 <= i <= |segs| && |added| == |segs|
        invariant tasks == old(tasks) + added[..i]
      {
        TakeOneMore(added, i);
        tasks := tasks + [Task(Strip(segs[i]), today, 0)];
        i := i + 1;
      }
      assert added[..i] == added;
      NewTasksShape(text, today);
      assert added == NewTasks(text, today);
      printed := [TasksAdded];
    }

    /** update_status, given the index line the user would type: on an empty
        list it only prints a notice (and reads no line); otherwise it lists
        the tasks and flips the flag of every task the line selects. Returns
        what it prints. */
    method UpdateStatus(raw: string) returns (printed: seq<string>)
      modifies this
      ensures tasks == Toggled(old(tasks), raw)
      ensures printed ==
        if old(tasks) == [] then [NothingToUpdate] else ListLines(old(tasks)) + [StatusUpdated]
    {
      if tasks == [] {
        return [NothingToUpdate];
      }
      printed := ListLines(tasks);
      var toks := Split(Strip(raw), ',');
      var i := 0;
      while i < |toks|
        invariant 0 <= i <= |toks|
        invariant tasks == ApplyTokens(old(tasks), toks[..i])
      {
        ApplyIndex(toks[i]);
        assert toks[..i + 1][..i] == toks[..i] && toks[..i + 1][i] == toks[i];
        i := i + 1;
      }
      assert toks[..i] == toks;
      printed := printed + [StatusUpdated];
    }

    /** One token of the index line: if, trimmed, it is all digits and names a
        listed task, that task's flag is flipped. */
    method ApplyIndex(tok: string)
      modifies this
      ensures tasks == ApplyToken(old(tasks), tok)
    {
      var p := Strip(tok);
      if IsDigits(p) {
        var k := DigitsValue(p) - 1;
        if 0 <= k < |tasks| {
          tasks := tasks[k := tasks[k].(done := Flip(tasks[k].done))];
        }
      }
    }
  }
}
