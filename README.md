# A verified model of the to-do list script

`todo.py` is a console to-do list. `menu()` loads the list from `tasks.csv`
and then loops over a menu:

1. add tasks (a comma-separated line, one task per segment);
2. list them, numbered from 1 with a tick for done ones;
3. save to `tasks.csv` and exit;
4. flip the done flag of the tasks whose numbers are typed (a comma-separated line);
5. plot a bar chart of the "Done" and "Open" counts.

This project models that core in Dafny and proves what the program promises.

The model's terms:

- A **task** is the record `Task(task, created, done)`. `done` is kept as the
  integer the program stores (see below).
- A **file** is the sequence of its CSV rows, each row the sequence of its fields
  (`Storage.Row`). A missing file is `None`.
- **Console input** is a finite script of lines, one per `input()` call.
- Everything the program shows or writes is a sequence of **events**
  (`Shell.Event`):
  - `ShowMenu` for the six menu lines;
  - `Say(lines)` for what one call prints (a call that prints nothing, such as
    `add_task` on a blank line, gives no event);
  - `Chart(counts)` for the two bars;
  - `Write(rows)` for what `save_tasks` writes.
- **Today's date**, `str(date.today())`, is a parameter.

Modules, following the script's functions:

- `Text`: `str.strip()`, `str.split(",")`, `str.isdigit()`, `int()` and `str()`
  of an int.
- `Tasks`: the task record, `add_task`'s new tasks and `update_status`'s flips,
  on values.
- `Report`: `list_tasks`'s lines and `show_diagram`'s two counts.
- `Registry`: the class `TaskList`, the mutable list. `add_task` and
  `update_status` are its methods, written as the loops the script runs.
- `Storage`: `load_tasks` and `save_tasks` at row level, each as a loop and as a
  function.
- `Shell`: one pass of `menu()`'s loop, the whole run, and the loop itself as
  methods on a `TaskList`.

Each method is proved equal to a function:

| method | function |
|---|---|
| `Loop` | `RunMenu` |
| `Menu` | `Program` |
| `LoadTasks` | `Load` |
| `SaveTasks` | `ToRows` |
| `AddTasks` | `NewTasks` |
| `UpdateStatus` | `Toggled` |

The properties are proved about those functions.

Three behaviours of `todo.py` that the model keeps exactly:

- **Empty segments are kept.** `add_task` appends one task per segment of
  `split(",")`, empty ones included: `"a,,b"` adds three tasks, the middle one
  with an empty description.
- **The done flag is an integer.**
  - `list_tasks` ticks it only when it is exactly 1.
  - `update_status` sets it to 0 when it is 1, and to 1 otherwise.
  - `show_diagram` sums the raw integers.

  So a flag of 2 read from the file shows no tick, counts twice in "Done",
  can make "Open" negative (a single task with flag 2 gives −1), and becomes
  0 after two flips.
- **Index tokens.** `update_status` applies a token when, trimmed, it passes
  `isdigit()` and its value is between 1 and the list's length. Every other
  token is ignored in the model; the over-long digit tokens on which newer
  CPython versions make `int()` raise are described under Left out.

## Model

| member | source | states |
|---|---|---|
| Text.Strip | todo.py:63 | result is the infix of the input between its leading and trailing whitespace runs (Python's whitespace set), and does not start or end with whitespace |
| Text.Split | todo.py:66 | `split(",")` gives one more segment than there are commas; no segment holds a comma; joining them with commas gives the input back |
| Text.SplitJoin | todo.py:66 | splitting segments joined by commas gives exactly those segments (empty ones included) |
| Text.NatToString | todo.py:54-56 | the number printed before a listed task is decimal digits without leading zeros whose value is the number |
| Text.ParseIntOfDigits | todo.py:86-87 | a token that passes `isdigit()` is read by `int()` as its decimal value (the digit-count limit of newer CPython versions is not modelled, see Left out) |
| Text.ParseIntOfIntToString | todo.py:31 | `int(str(n)) == n` for every integer, so a saved done column is read back unchanged |
| Text.ParseIntNeedsDigit | todo.py:31 | `int()` rejects every field without a digit, the empty field among them |
| Text.ParseIntRejectsSeparator | todo.py:31 | `int()` rejects a field that starts or ends with one of U+001C..U+001F, whitespace to `str.strip()` but not to `int()` |
| Text.ParseIntSeparatorExample | todo.py:31 | the done field `"\x1c1"` is rejected |
| Text.ParseIntSpaceExample | todo.py:31 | the done field `"\t7\n"` is read as 7 |
| Text.ParseIntOfNegative | todo.py:31 | a minus sign followed by ASCII digits is read as the negated value |
| Text.IsDigits | todo.py:86 | the `isdigit()` test: true exactly for a non-empty string of ASCII digits (no ensures of its own; ParseIntOfDigits and Tasks.ApplyToken state what passing it means) |
| Text.ParseInt | todo.py:31 | `int()` on a text field, `None` where it raises `ValueError` (also applied at line 87); no ensures of its own, specified by ParseIntOfDigits, ParseIntOfNegative, ParseIntOfIntToString, ParseIntNeedsDigit and ParseIntRejectsSeparator |
| Text.IntToString | todo.py:45 | `str()` of the done flag, as `csv.writer` writes it: ASCII digits of the value for a flag of 0 or more; a minus sign, then the digits of the magnitude, for a negative flag |
| Tasks.NewTasks | todo.py:62-71 | no tasks exactly when the trimmed line is empty, else one per comma-separated segment; each is dated today, not done, trimmed and comma-free |
| Tasks.NewTasksOfSegments | todo.py:66-71 | for any segments whose comma-join is the trimmed line, task i is segment i trimmed, dated today, with flag 0 |
| Tasks.AddThree | todo.py:63-71 | `"a, b ,c"` adds the tasks "a", "b" and "c", in that order |
| Tasks.EmptySegmentKept | todo.py:66-71 | `"a,,b"` adds three tasks, the middle one with an empty description |
| Tasks.Flip | todo.py:89 | the new flag is 0 or 1, and a flag of 0 or 1 becomes the other one |
| Tasks.FlipNBinary | todo.py:89 | a flag of 0 or 1 flipped n times depends only on the parity of n |
| Tasks.FlipNIsBinary | todo.py:89 | a flag that was flipped at least once, or started at 0 or 1, is 0 or 1 |
| Tasks.ApplyToken | todo.py:86-89 | one token flips task k exactly when, trimmed, it is all digits with value k + 1, and leaves every other task as it was |
| Tasks.ApplyTokens | todo.py:85-89 | the tokens keep the list's length and every task's description and date |
| Tasks.Toggled | todo.py:78-89 | length, descriptions and dates are kept, and an empty list is returned as is |
| Tasks.ApplyTokensFlips | todo.py:85-89 | after the tokens, task k has been flipped once per token that selects it, and nothing else about it changed |
| Tasks.ToggledFlips | todo.py:84-89 | after the index line, task k has been flipped once per token of the trimmed line that selects it |
| Tasks.ToggledBinary | todo.py:85-89 | flags that are all 0 or 1 stay so after an update |
| Tasks.HitsNone | todo.py:86-88 | tokens that are not all digits, are "0", or number past the list select no task |
| Tasks.ToggledIgnores | todo.py:86-88 | an index line whose tokens select nothing leaves the list unchanged |
| Tasks.ToggleTwiceRestores | todo.py:85-89 | with flags of 0 or 1, entering the same index line twice restores the list |
| Tasks.FlipTwiceNonBinary | todo.py:89 | a flag of 2 comes back as 0 after two flips, not as 2 |
| Report.ListLines | todo.py:50-56 | an empty list prints only "No tasks yet."; otherwise one line per task |
| Report.LineLayout | todo.py:55-56 | the line for number n and task t starts with n in decimal, then `. [`, a tick exactly when the flag is 1 (a blank otherwise), `] `, the description and ` (created: <date>)`, where the line ends |
| Report.ListedLine | todo.py:54-56 | line i of a listing shows task i under the number i + 1 |
| Report.ListedNumberSelects | todo.py:83-89 | typing the number a task is listed under flips that task and no other |
| Report.RepeatedTokens | todo.py:84-85 | the index line "k,k" for a listed number k has exactly the two tokens k and k |
| Report.RepeatedNumberRestores | todo.py:85-89 | with flags of 0 or 1, "k,k" for a listed number k leaves the list unchanged |
| Report.Summary | todo.py:96-97 | the two bars add up to the number of tasks |
| Report.SummaryOfBinaryFlags | todo.py:55-97 | with flags of 0 or 1, "Done" is the number of tasks the listing ticks, and both bars lie between 0 and the list's length |
| Report.SumDoneAppend | todo.py:96 | the "Done" sum of two lists put together is the sum of their sums |
| Report.SummaryAfterAdd | todo.py:66-97 | adding tasks leaves "Done" as it was and raises "Open" by the number added |
| Report.SummaryTwoOfFive | todo.py:96-97 | five tasks of which two are done give the bars 2 and 3 |
| Report.SummaryOfForeignFlag | todo.py:96-97 | a single task with flag 2 gives the bars 2 and -1 |
| Registry.TaskList.constructor | todo.py:107 | the list starts as the tasks loaded |
| Registry.TaskList.AddTasks | todo.py:62-72 | the list becomes the old list followed by NewTasks of the line; prints "Task(s) added." unless the trimmed line is empty, when nothing is printed |
| Registry.TaskList.UpdateStatus | todo.py:78-90 | the list becomes Toggled of the old list and the line; prints "No tasks to update." for an empty list, else the listing followed by "Status updated." |
| Registry.TaskList.ApplyIndex | todo.py:86-89 | the list becomes ApplyToken of the old list and the token |
| Storage.ParseDataRows | todo.py:26-32 | the loop over the rows after the header (no ensures of its own; specified by ParseDataRowsOk, ParseDataRowsValue and ParseDataRowsErr) |
| Storage.Load | todo.py:20-35 | a missing file, an empty file and a file holding only the header all load as the empty list |
| Storage.ToRows | todo.py:40-45 | the rows save_tasks writes: the header `task,created,done`, then row i + 1 holding task i's description, date and `str()` of its flag |
| Storage.ParseDataRowsOk | todo.py:26-32 | loading the rows after the header succeeds exactly when every row of at least three fields has a done field `int()` accepts |
| Storage.ParseDataRowsValue | todo.py:26-32 | a load that succeeds gives one task per row of at least three fields, in order, from fields 0, 1 and `int()` of field 2 |
| Storage.ParseDataRowsErr | todo.py:27-31 | a load that fails reports the done field of a long row that `int()` rejects |
| Storage.ParseDataRowsErrSticks | todo.py:26-31 | once a prefix of the rows fails to load, the whole file fails with the same error |
| Storage.LoadTasks | todo.py:20-35 | a missing file gives the empty list; an existing one gives what its rows after the first (the header) load to |
| Storage.SaveTasks | todo.py:40-45 | writes the header `task,created,done`, then one row per task, in order, holding its description, date and `str()` of its flag |
| Storage.ParseTaskRows | todo.py:26-45 | the data rows written for a list load back as that list |
| Storage.SaveThenLoad | todo.py:20-45 | loading what save_tasks wrote gives back the list that was saved |
| Storage.CanonicalIntParses | todo.py:31 | a field in the form `str()` gives an integer is read by `int()` and printed back as itself |
| Storage.CanonicalRowTask | todo.py:28-45 | a three-field row with a canonical done field loads to a task that is written back as the same row |
| Storage.RowsOfTheirTasks | todo.py:26-45 | data rows that each give a task written back as themselves load, and save as the same rows |
| Storage.LoadThenSave | todo.py:20-45 | a file of the header and canonical three-field rows loads, and saving the result writes the same rows back |
| Storage.ShortRowSkipped | todo.py:25-32 | a row of two fields loads as nothing, and does not disturb the row after it |
| Shell.ChoiceOf | todo.py:116-131 | the if/elif chain takes branch 1 to 5 exactly when the trimmed choice line is "1" to "5", and the invalid-choice branch for every other line |
| Shell.MenuStep | todo.py:108-131 | a pass that goes back to the menu has read at least one line |
| Shell.StepRest | todo.py:63-127 | the lines left after a pass are the input without the choice line and, when it is there, the line choice 1 (or 4 on a non-empty list) reads |
| Shell.StepReads | todo.py:63-116 | a pass reads a prefix of its input, and when the input runs out it has read all of it |
| Shell.StepExits | todo.py:122-125 | a pass leaves the loop through save exactly when its choice line trims to "3", and then it writes the unchanged list and says goodbye |
| Shell.StepContinues | todo.py:116-131 | a pass goes back to the menu exactly when it has a choice line other than "3" and, for 1 (and 4 on a non-empty list), the line it then reads; 2 lists the tasks, 5 charts their counts, 1 appends NewTasks and prints "Task(s) added." unless the line is blank, 4 flips the selected tasks after listing them, or prints "No tasks to update." on an empty list |
| Shell.StepWritesNothing | todo.py:118-131 | a pass that does not exit writes nothing |
| Shell.StepKeeps | todo.py:118-131 | a pass keeps every task, in place, with its description and date |
| Shell.StepCases | todo.py:116-131 | with no input left the pass only shows the menu; an invalid choice says "Invalid choice." and changes nothing; choices other than 1 and 4 leave the list as it was |
| Shell.RunMenu | todo.py:108-131 | a run of the loop ends either saved or with the input exhausted |
| Shell.WritesOnlyAtExit | todo.py:108-131 | a run writes the file at most once, as its second-to-last event, and only when it ends saved |
| Shell.RunMenuKeeps | todo.py:108-131 | no task is ever removed and no description or date changes during a run |
| Shell.SavedAtThree | todo.py:116-125 | a run saves only after reading a line that trims to "3" |
| Shell.SavedEnds | todo.py:122-125 | a run that saves ends by writing its final list and saying "Saved. Goodbye!" |
| Shell.SavesOnlyThroughThree | todo.py:106-131 | for the whole program, a saved run read a line trimming to "3", and at most one write happens, as the second-to-last event |
| Shell.SavedLoadsBack | todo.py:106-125 | a saved run ends by writing its final list, and those rows load back as that list |
| Shell.KeepsLoaded | todo.py:106-131 | every task loaded from the file is still there at the end, with its description and date |
| Shell.MenuStepBinary | todo.py:118-129 | a pass keeps every flag 0 or 1 when they all were |
| Shell.RunMenuBinary | todo.py:108-131 | a run keeps every flag 0 or 1 when they all were at the start |
| Shell.AddPass | todo.py:118-119 | choice 1 reads the next line and appends its tasks, as MenuStep says |
| Shell.UpdatePass | todo.py:126-127 | choice 4 reads the index line only for a non-empty list and flips the tasks it selects, as MenuStep says |
| Shell.Dispatch | todo.py:109-131 | a pass on the TaskList changes the list, shows events, reads lines and continues or stops exactly as MenuStep says |
| Shell.Pass | todo.py:108-131 | a pass leaves the run as its events followed by the run on the unread input, or ends the run saved or closed |
| Shell.Loop | todo.py:108-131 | the `while True` loop on the TaskList produces exactly the run RunMenu describes |
| Shell.Program | todo.py:106-131 | the whole program ends with a failed load exactly when load_tasks fails, and then nothing has been shown or written |
| Shell.Menu | todo.py:106-131 | `menu()` produces exactly what Program describes: load_tasks, then the loop |

## Left out

- Console I/O. `input()` is a line taken from a finite script, and `print` is an event. The prompt texts that `input()` shows are not modelled.
- `ShowMenu` stands for the six menu lines (`Shell.MenuLines`), rather than six separate line events.
- End of input. `input()` on an exhausted script would raise `EOFError` and crash the script. The model stops the run with the outcome `Closed` instead, and nothing is saved.
- The date. `date.today()` is the parameter `today`. The script calls it once per added segment, so a run crossing midnight could date the segments of one add differently. The model gives them all the same date.
- CSV syntax. `csv.reader` and `csv.writer` quoting, escaping and line endings are not modelled. A file is its sequence of rows of fields.
- The file system. `open()` of a missing file is `None`, which the script treats as an empty list. Other `OSError`s, UTF-8 decoding errors and a failing write in `save_tasks` are not modelled.
- The failed load. When `int()` raises `ValueError` on a done field, the script crashes before the menu. The model ends the run with the outcome `LoadFailed`, carrying the rejected field.
- The chart: `matplotlib` itself (`plt.bar`, the title, the axis label, `plt.show`). Only the two counts are modelled, as the `Chart` event.
- Text.IsDigits: accepts ASCII digits only. Python's `str.isdigit()` also accepts other Unicode digits, for instance superscripts, which `int()` may then reject. The model does not capture that crash path of `update_status`.
- Text.ParseInt: accepts only ASCII digits. CPython's `int()` also converts other Unicode decimal digits (Arabic-Indic ones, for instance) to their values, and the model rejects those fields. Surrounding whitespace, one sign and single underscores between digits are modelled.
- Text.ParseIntOfDigits: does not model the limit on the number of digits that CPython 3.11 and later (and security backports of earlier versions) put on `int()` of a string, 4300 by default and configurable through `PYTHONINTMAXSTRDIGITS` or `sys.set_int_max_str_digits`. Above that limit `int()` raises `ValueError`. The script then crashes: in `load_tasks` on such a done field, and in `update_status` on such an index token, in both cases with nothing saved. Text.ParseInt reads any number of digits, so Storage loads such a field and Tasks.ApplyToken ignores such a token, since its value is past the list's length.
- UpdateStatus on an empty list reads no line. The script returns before its `input()`, so Shell.UpdatePass passes it an empty line that it never looks at.
- The module-level call `menu()` at the end of the file is not modelled. Shell.Menu is that call.
