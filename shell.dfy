/** The program as a whole: menu() loads the list, then runs its loop over the
    lines the user types until "3" saves and exits. Console input is a finite
    script of lines; what the program prints, plots and writes is a sequence of
    events. */
module Shell {
  import opened Wrappers
  import opened Text
  import opened Tasks
  import opened Report
  import opened Registry
  import opened Storage

  /** One observable effect: the menu (the lines MenuLines) printed, the other
      lines one call prints, a bar chart of the two counts, or the rows written
      to tasks.csv. */
  datatype Event = ShowMenu | Say(lines: seq<string>) | Chart(counts: Counts) | Write(rows: seq<Row>)

  datatype Next = Continue | Exit | EndOfInput

  /** One pass of the loop: the list after it, the input lines not yet read,
      what it showed, and where the loop goes next. */
  datatype Step = Step(tasks: seq<Task>, rest: seq<string>, events: seq<Event>, next: Next)

  /** How a run ends: saved through "3", stopped by the end of input with
      nothing saved, or stopped before the menu by a done field int() rejects. */
  datatype Outcome = Saved | Closed | LoadFailed(error: LoadError)

  datatype Session = Session(events: seq<Event>, tasks: seq<Task>, outcome: Outcome)

  const MenuLines: seq<string> :=
    ["\n=== TO-DO MENU ===", "1) Add task", "2) List tasks", "3) Save & Exit",
     "4) Update status (done/undo)", "5) Show diagram"]
  const Goodbye := "Saved. Goodbye!"
  const InvalidChoice := "Invalid choice."

  /** What menu() does with a choice line, by the if/elif chain over the
      trimmed line. */
  datatype Choice = Add | List | SaveExit | Update | Diagram | Unknown

  /** The branch the if/elif chain takes for the line typed at "Choose (1-5)". */
  function ChoiceOf(line: string): (c: Choice)
    ensures c == Add <==> Strip(line) == "1"
    ensures c == List <==> Strip(line) == "2"
    ensures c == SaveExit <==> Strip(line) == "3"
    ensures c == Update <==> Strip(line) == "4"
    ensures c == Diagram <==> Strip(line) == "5"
    ensures c == Unknown <==> Strip(line) !in {"1", "2", "3", "4", "5"}
  {
    var t := Strip(line);
    if |t| != 1 then Unknown
    else if t[0] == '1' then Add
    else if t[0] == '2' then List
    else if t[0] == '3' then SaveExit
    else if t[0] == '4' then Update
    else if t[0] == '5' then Diagram
    else Unknown
  }

  /** One pass of menu()'s loop over the list `ts`, reading from `input`. */
  function MenuStep(ts: seq<Task>, input: seq<string>, today: string): (s: Step)
    ensures s.next == Continue ==> |s.rest| < |input|
  {
    if input == [] then Step(ts, [], [ShowMenu], EndOfInput)
    else
      var rest := input[1..];
      match ChoiceOf(input[0])
      case Add =>
        if rest == [] then Step(ts, [], [ShowMenu], EndOfInput)
        else if Strip(rest[0]) == [] then Step(ts, rest[1..], [ShowMenu], Continue)
        else Step(ts + NewTasks(rest[0], today), rest[1..], [ShowMenu, Say([TasksAdded])], Continue)
      case List =>
        Step(ts, rest, [ShowMenu, Say(ListLines(ts))], Continue)
      case SaveExit =>
        Step(ts, rest, [ShowMenu, Write(ToRows(ts)), Say([Goodbye])], Exit)
      case Update =>
        if ts == [] then Step(ts, rest, [ShowMenu, Say([NothingToUpdate])], Continue)
        else if rest == [] then Step(ts, [], [ShowMenu, Say(ListLines(ts))], EndOfInput)
        else Step(Toggled(ts, rest[0]), rest[1..], [ShowMenu, Say(ListLines(ts) + [StatusUpdated])], Continue)
      case Diagram =>
        Step(ts, rest, [ShowMenu, Chart(Summary(ts))], Continue)
      case Unknown =>
        Step(ts, rest, [ShowMenu, Say([InvalidChoice])], Continue)
  }

  /** How many input lines a pass reads: none at the end of input, the choice
      line, and the line add_task or (on a non-empty list) update_status reads
      when it is there. */
  function LinesRead(ts: seq<Task>, input: seq<string>): (n: nat)
    ensures n <= |input|
  {
    if input == [] then 0
    else if |input| > 1 && (ChoiceOf(input[0]) == Add || (ChoiceOf(input[0]) == Update && ts != [])) then 2
    else 1
  }

  lemma StepRest(ts: seq<Task>, input: seq<string>, today: string)
    ensures MenuStep(ts, input, today).rest == input[LinesRead(ts, input)..]
  {
    if |input| > 1 {
      assert input[1..][1..] == input[2..];
    }
  }

  /** A pass reads a prefix of its input, and all of it when the input ends. */
  lemma StepReads(ts: seq<Task>, input: seq<string>, today: string)
    ensures var s := MenuStep(ts, input, today);
      |s.rest| <= |input| && s.rest == input[|input| - |s.rest|..] &&
      (s.next == EndOfInput ==> s.rest == [])
  {
    StepRest(ts, input, today);
    var n := LinesRead(ts, input);
    assert |input| - |input[n..]| == n;
  }

  /** A pass leaves the loop through "3" exactly when its choice line trims to
      "3", and then it writes the list as it stands and says goodbye. */
  lemma StepExits(ts: seq<Task>, input: seq<string>, today: string)
    ensures var s := MenuStep(ts, input, today);
      (s.next == Exit <==> input != [] && ChoiceOf(input[0]) == SaveExit) &&
      (s.next == Exit ==> s.tasks == ts && s.events == [ShowMenu, Write(ToRows(ts)), Say([Goodbye])])
  {
  }

  /** A pass that does not exit writes nothing. */
  lemma StepWritesNothing(ts: seq<Task>, input: seq<string>, today: string)
    ensures var s := MenuStep(ts, input, today);
      s.next != Exit ==> WritesNothing(s.events)
  {
  }

  /** A pass keeps every task, in place, up to its flag. */
  lemma StepKeeps(ts: seq<Task>, input: seq<string>, today: string)
    ensures Extends(ts, MenuStep(ts, input, today).tasks)
  {
  }

  /** With nothing left to read, a pass shows the menu and the loop ends; a
      choice line outside 1-5 says so and goes back to the menu; only choices 1
      and 4 change the list. */
  lemma StepCases(ts: seq<Task>, input: seq<string>, today: string)
    ensures input == [] ==> MenuStep(ts, input, today) == Step(ts, [], [ShowMenu], EndOfInput)
    ensures input != [] && ChoiceOf(input[0]) == Unknown ==>
      MenuStep(ts, input, today) == Step(ts, input[1..], [ShowMenu, Say([InvalidChoice])], Continue)
    ensures input == [] || !(ChoiceOf(input[0]) == Add || ChoiceOf(input[0]) == Update) ==>
      MenuStep(ts, input, today).tasks == ts
  {
  }

  /** A pass goes back to the menu exactly when it has its choice line, the
      choice is not "3", and the line choice 1 reads (choice 4, on a non-empty
      list) is there. Choice 2 lists the tasks, 5 plots their counts, 1 appends
      the new tasks and says so unless the line is blank, and 4 lists the tasks,
      flips the ones the line selects and says so, or says there is nothing to
      update. */
  lemma StepContinues(ts: seq<Task>, input: seq<string>, today: string)
    ensures var s := MenuStep(ts, input, today);
      s.next == Continue <==>
        input != [] && ChoiceOf(input[0]) != SaveExit &&
        (|input| > 1 || !(ChoiceOf(input[0]) == Add || (ChoiceOf(input[0]) == Update && ts != [])))
    ensures input != [] && ChoiceOf(input[0]) == List ==>
      MenuStep(ts, input, today) == Step(ts, input[1..], [ShowMenu, Say(ListLines(ts))], Continue)
    ensures input != [] && ChoiceOf(input[0]) == Diagram ==>
      MenuStep(ts, input, today) == Step(ts, input[1..], [ShowMenu, Chart(Summary(ts))], Continue)
    ensures |input| > 1 && ChoiceOf(input[0]) == Add ==>
      MenuStep(ts, input, today) ==
        Step(ts + NewTasks(input[1], today), input[2..],
             if Strip(input[1]) == [] then [ShowMenu] else [ShowMenu, Say([TasksAdded])], Continue)
    ensures input != [] && ChoiceOf(input[0]) == Update && ts == [] ==>
      MenuStep(ts, input, today) == Step(ts, input[1..], [ShowMenu, Say([NothingToUpdate])], Continue)
    ensures |input| > 1 && ChoiceOf(input[0]) == Update && ts != [] ==>
      MenuStep(ts, input, today) ==
        Step(Toggled(ts, input[1]), input[2..], [ShowMenu, Say(ListLines(ts) + [StatusUpdated])], Continue)
  {
    if |input| > 1 && ChoiceOf(input[0]) == Add && Strip(input[1]) == [] {
      StripEmpty(input[1]);
      assert NewTasks(input[1], today) == [];
      assert ts + [] == ts;
    }
    if |input| > 1 {
      assert input[1..][1..] == input[2..];
    }
  }

  /** menu()'s loop from the list `ts` on the remaining input; it never ends
      with a load failure, which can only happen before it starts. */
  function RunMenu(ts: seq<Task>, input: seq<string>, today: string): (r: Session)
    ensures r.outcome == Saved || r.outcome == Closed
    decreases |input|
  {
    var s := MenuStep(ts, input, today);
    match s.next
    case Exit => Session(s.events, s.tasks, Saved)
    case EndOfInput => Session(s.events, s.tasks, Closed)
    case Continue => After(s.events, RunMenu(s.tasks, s.rest, today))
  }

  /** RunMenu after a pass that goes back to the menu. */
  lemma RunMenuContinue(ts: seq<Task>, input: seq<string>, today: string)
    requires MenuStep(ts, input, today).next == Continue
    ensures var s := MenuStep(ts, input, today);
      RunMenu(ts, input, today) == After(s.events, RunMenu(s.tasks, s.rest, today))
  {
  }

  /** The run `r` preceded by the events `es`. */
  function After(es: seq<Event>, r: Session): Session {
    Session(es + r.events, r.tasks, r.outcome)
  }

  lemma AfterAfter(a: seq<Event>, b: seq<Event>, r: Session)
    ensures After(a, After(b, r)) == After(a + b, r)
  {
    assert a + (b + r.events) == (a + b) + r.events;
  }

  /** RunMenu after a pass that leaves the loop. */
  lemma RunMenuStops(ts: seq<Task>, input: seq<string>, today: string)
    requires MenuStep(ts, input, today).next != Continue
    ensures var s := MenuStep(ts, input, today);
      RunMenu(ts, input, today) == Session(s.events, s.tasks, if s.next == Exit then Saved else Closed)
  {
  }

  /** No event of `es` is a Write. */
  predicate WritesNothing(es: seq<Event>) {
    forall i :: 0 <= i < |es| ==> !es[i].Write?
  }

  /** The run `r` writes, if at all, only as its second-to-last event, and only
      when it saved. */
  predicate WritesOnlyAtEnd(r: Session) {
    forall i :: 0 <= i < |r.events| && r.events[i].Write? ==>
      r.outcome == Saved && i == |r.events| - 2
  }

  lemma WritesAfter(es: seq<Event>, r: Session)
    requires WritesNothing(es) && WritesOnlyAtEnd(r)
    ensures WritesOnlyAtEnd(After(es, r))
  {
    var all := es + r.events;
    forall i | 0 <= i < |all| && all[i].Write? ensures r.outcome == Saved && i == |all| - 2 {
      if i >= |es| {
        assert all[i] == r.events[i - |es|];
      }
    }
  }

  /** The run `r` ends by writing its list and saying goodbye. */
  predicate EndsSaving(r: Session) {
    |r.events| >= 2 && r.events[|r.events| - 2] == Write(ToRows(r.tasks)) &&
    r.events[|r.events| - 1] == Say([Goodbye])
  }

  lemma EndsAfter(es: seq<Event>, r: Session)
    requires EndsSaving(r)
    ensures EndsSaving(After(es, r))
  {
    var all := es + r.events;
    assert all[|all| - 2] == r.events[|r.events| - 2];
    assert all[|all| - 1] == r.events[|r.events| - 1];
  }

  /** The only Write of a run, if any, is its second-to-last event, and only a
      run that saved has one. */
  lemma {:induction false} WritesOnlyAtExit(ts: seq<Task>, input: seq<string>, today: string)
    ensures WritesOnlyAtEnd(RunMenu(ts, input, today))
    decreases |input|
  {
    var s := MenuStep(ts, input, today);
    StepWritesNothing(ts, input, today);
    if s.next == Continue {
      var r := RunMenu(s.tasks, s.rest, today);
      WritesOnlyAtExit(s.tasks, s.rest, today);
      RunMenuContinue(ts, input, today);
      WritesAfter(s.events, r);
    } else {
      RunMenuStops(ts, input, today);
      StepExits(ts, input, today);
    }
  }

  /** Tasks are never lost: every task the run starts with is still there at the
      end, in place, with its description and date. */
  lemma {:induction false} RunMenuKeeps(ts: seq<Task>, input: seq<string>, today: string)
    ensures Extends(ts, RunMenu(ts, input, today).tasks)
    decreases |input|
  {
    var s := MenuStep(ts, input, today);
    StepKeeps(ts, input, today);
    if s.next == Continue {
      RunMenuKeeps(s.tasks, s.rest, today);
      RunMenuContinue(ts, input, today);
    } else {
      RunMenuStops(ts, input, today);
    }
  }

  /** A run saves only by reading a line that trims to "3". */
  lemma {:induction false} SavedAtThree(ts: seq<Task>, input: seq<string>, today: string)
    requires RunMenu(ts, input, today).outcome == Saved
    ensures exists i :: 0 <= i < |input| && Strip(input[i]) == "3"
    decreases |input|
  {
    var s := MenuStep(ts, input, today);
    StepExits(ts, input, today);
    if s.next == Continue {
      RunMenuContinue(ts, input, today);
      SavedAtThree(s.tasks, s.rest, today);
      StepReads(ts, input, today);
      var j :| 0 <= j < |s.rest| && Strip(s.rest[j]) == "3";
      assert s.rest[j] == input[|input| - |s.rest| + j];
    } else {
      RunMenuStops(ts, input, today);
      assert Strip(input[0]) == "3";
    }
  }

  /** A run that saves ends by writing the final list and saying goodbye. */
  lemma {:induction false} SavedEnds(ts: seq<Task>, input: seq<string>, today: string)
    requires RunMenu(ts, input, today).outcome == Saved
    ensures EndsSaving(RunMenu(ts, input, today))
    decreases |input|
  {
    var s := MenuStep(ts, input, today);
    if s.next == Continue {
      var r := RunMenu(s.tasks, s.rest, today);
      RunMenuContinue(ts, input, today);
      SavedEnds(s.tasks, s.rest, today);
      EndsAfter(s.events, r);
    } else {
      RunMenuStops(ts, input, today);
      StepExits(ts, input, today);
    }
  }

  /** The whole program: load_tasks, then the menu loop; a load that fails
      stops it before anything is shown. */
  function Program(file: Option<seq<Row>>, input: seq<string>, today: string): (r: Session)
    ensures r.outcome.LoadFailed? <==> Load(file).Err?
    ensures Load(file).Err? ==> r.events == [] && r.outcome == LoadFailed(Load(file).error)
  {
    match Load(file)
    case Err(e) => Session([], [], LoadFailed(e))
    case Ok(ts) => RunMenu(ts, input, today)
  }

  /** A run that saved read a line trimming to "3", and its only Write is the
      one just before the goodbye; a run that did not save wrote nothing. */
  lemma SavesOnlyThroughThree(file: Option<seq<Row>>, input: seq<string>, today: string)
    ensures Program(file, input, today).outcome == Saved ==>
      exists i :: 0 <= i < |input| && Strip(input[i]) == "3"
    ensures WritesOnlyAtEnd(Program(file, input, today))
  {
    if Load(file).Ok? {
      var ts := Load(file).value;
      assert Program(file, input, today) == RunMenu(ts, input, today);
      WritesOnlyAtExit(ts, input, today);
      if RunMenu(ts, input, today).outcome == Saved {
        SavedAtThree(ts, input, today);
      }
    }
  }

  /** What the program writes when it exits loads back as the list it held. */
  lemma SavedLoadsBack(file: Option<seq<Row>>, input: seq<string>, today: string)
    requires Program(file, input, today).outcome == Saved
    ensures EndsSaving(Program(file, input, today))
    ensures Load(Some(ToRows(Program(file, input, today).tasks))) == Ok(Program(file, input, today).tasks)
  {
    var ts := Load(file).value;
    assert Program(file, input, today) == RunMenu(ts, input, today);
    SavedEnds(ts, input, today);
    SaveThenLoad(RunMenu(ts, input, today).tasks);
  }

  /** Every task loaded from the file is still there at exit with its
      description and date. */
  lemma KeepsLoaded(file: Option<seq<Row>>, input: seq<string>, today: string)
    requires Load(file).Ok?
    ensures Extends(Load(file).value, Program(file, input, today).tasks)
  {
    var ts := Load(file).value;
    assert Program(file, input, today) == RunMenu(ts, input, today);
    RunMenuKeeps(ts, input, today);
  }

  /** One pass keeps every flag 0 or 1 when they all were. */
  lemma MenuStepBinary(ts: seq<Task>, input: seq<string>, today: string)
    requires AllBinary(ts)
    ensures AllBinary(MenuStep(ts, input, today).tasks)
  {
    var s := MenuStep(ts, input, today);
    if input != [] && |input| > 1 && ChoiceOf(input[0]) == Add {
      var added := NewTasks(input[1], today);
      assert s.tasks == ts + added;
      forall k | 0 <= k < |s.tasks| ensures s.tasks[k].done == 0 || s.tasks[k].done == 1 {
        if k >= |ts| {
          assert s.tasks[k] == added[k - |ts|];
        }
      }
    } else if input != [] && |input| > 1 && ChoiceOf(input[0]) == Update && ts != [] {
      assert s.tasks == Toggled(ts, input[1]);
      ToggledBinary(ts, input[1]);
    } else if input != [] && ChoiceOf(input[0]) == Add {
      assert s.tasks == ts;
    } else if input != [] && ChoiceOf(input[0]) == Update {
      assert s.tasks == ts;
    }
  }

  /** With flags of 0 or 1 to start with, the whole run keeps them so (and then
      every chart it draws agrees with the listing, by SummaryOfBinaryFlags). */
  lemma {:induction false} RunMenuBinary(ts: seq<Task>, input: seq<string>, today: string)
    requires AllBinary(ts)
    ensures AllBinary(RunMenu(ts, input, today).tasks)
    decreases |input|
  {
    var s := MenuStep(ts, input, today);
    MenuStepBinary(ts, input, today);
    if s.next == Continue {
      RunMenuBinary(s.tasks, s.rest, today);
    }
  }

  // ---- the loop as the program runs it -------------------------------------

  /** One pass of menu()'s loop on the TaskList `list`, reading from `input`:
      prints the menu, reads the choice and calls add_task, list_tasks,
      save_tasks, update_status or show_diagram. Returns what the pass showed,
      how many lines it read and where the loop goes next. */
  method Dispatch(list: TaskList, input: seq<string>, today: string)
      returns (events: seq<Event>, used: nat, next: Next)
    modifies list
    ensures var s := MenuStep(old(list.tasks), input, today);
      list.tasks == s.tasks && events == s.events && next == s.next &&
      used <= |input| && input[used..] == s.rest
  {
    if input == [] {
      return [ShowMenu], 0, EndOfInput;
    }
    var choice := ChoiceOf(input[0]);
    if choice == Add {
      events, used, next := AddPass(list, input, today);
    } else if choice == Update {
      events, used, next := UpdatePass(list, input);
    } else if choice == List {
      return [ShowMenu, Say(ListLines(list.tasks))], 1, Continue;
    } else if choice == SaveExit {
      var rows := SaveTasks(list.tasks);
      return [ShowMenu, Write(rows), Say([Goodbye])], 1, Exit;
    } else if choice == Diagram {
      return [ShowMenu, Chart(Summary(list.tasks))], 1, Continue;
    } else {
      return [ShowMenu, Say([InvalidChoice])], 1, Continue;
    }
  }

  /** The pass for choice 1: read the line of tasks and call add_task. */
  method AddPass(list: TaskList, input: seq<string>, today: string)
      returns (events: seq<Event>, used: nat, next: Next)
    requires input != [] && ChoiceOf(input[0]) == Add
    modifies list
    ensures var s := MenuStep(old(list.tasks), input, today);
      list.tasks == s.tasks && events == s.events && next == s.next &&
      used <= |input| && input[used..] == s.rest
  {
    if |input| == 1 {
      return [ShowMenu], 1, EndOfInput;
    }
    var printed := list.AddTasks(input[1], today);
    assert input[2..] == input[1..][1..];
    if printed == [] {
      return [ShowMenu], 2, Continue;
    }
    return [ShowMenu, Say(printed)], 2, Continue;
  }

  /** The pass for choice 4: update_status, which on a non-empty list lists
      the tasks and reads the index line. */
  method UpdatePass(list: TaskList, input: seq<string>)
      returns (events: seq<Event>, used: nat, next: Next)
    requires input != [] && ChoiceOf(input[0]) == Update
    modifies list
    ensures forall today: string :: var s := MenuStep(old(list.tasks), input, today);
      list.tasks == s.tasks && events == s.events && next == s.next &&
      used <= |input| && input[used..] == s.rest
  {
    if list.tasks == [] {
      var printed := list.UpdateStatus("");
      return [ShowMenu, Say(printed)], 1, Continue;
    } else if |input| == 1 {
      return [ShowMenu, Say(ListLines(list.tasks))], 1, EndOfInput;
    }
    var printed := list.UpdateStatus(input[1]);
    assert input[2..] == input[1..][1..];
    return [ShowMenu, Say(printed)], 2, Continue;
  }

  /** One pass, stated as what it leaves of the run: either the run is this
      pass's events followed by the run from the new list on the unread input,
      or the pass ended the run. */
  method Pass(list: TaskList, input: seq<string>, today: string)
      returns (events: seq<Event>, used: nat, next: Next)
    modifies list
    ensures used <= |input|
    ensures next == Continue ==> 0 < used
    ensures next == Continue ==>
      RunMenu(old(list.tasks), input, today) == After(events, RunMenu(list.tasks, input[used..], today))
    ensures next != Continue ==>
      RunMenu(old(list.tasks), input, today) == Session(events, list.tasks, if next == Exit then Saved else Closed)
  {
    ghost var before := list.tasks;
    events, used, next := Dispatch(list, input, today);
    if next == Continue {
      RunMenuContinue(before, input, today);
    } else {
      RunMenuStops(before, input, today);
    }
  }

  /** menu()'s `while True` loop on the TaskList `list`, until the choice "3"
      or the end of the input. */
  method Loop(list: TaskList, input: seq<string>, today: string) returns (r: Session)
    modifies list
    ensures r == RunMenu(old(list.tasks), input, today)
  {
    ghost var whole := RunMenu(list.tasks, input, today);
    var events: seq<Event> := [];
    var rest := input;
    assert whole == After(events, whole);
    while true
      invariant whole == After(events, RunMenu(list.tasks, rest, today))
      decreases |rest|
    {
      var shown, used, next := Pass(list, rest, today);
      if next != Continue {
        return Session(events + shown, list.tasks, if next == Exit then Saved else Closed);
      }
      AfterAfter(events, shown, RunMenu(list.tasks, rest[used..], today));
      events := events + shown;
      rest := rest[used..];
    }
  }

  /** menu(): load the list, then run the loop. */
  method Menu(file: Option<seq<Row>>, input: seq<string>, today: string) returns (r: Session)
    ensures r == Program(file, input, today)
  {
    var loaded := LoadTasks(file);
    if loaded.Err? {
      return Session([], [], LoadFailed(loaded.error));
    }
    var list := new TaskList(loaded.value);
    r := Loop(list, input, today);
  }
}
