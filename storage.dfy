/** load_tasks and save_tasks at the level of CSV rows: a file is the sequence
    of rows csv.reader yields (None when tasks.csv does not exist), each row the
    sequence of its fields. */
module Storage {
  import opened Wrappers
  import opened Text
  import opened Tasks

  type Row = seq<string>

  /** The first row save_tasks writes. */
  const Header: Row := ["task", "created", "done"]

  /** load_tasks's only failure: int() raising ValueError on a done field. */
  datatype LoadError = BadDoneField(text: string)

  // ---- load_tasks -----------------------------------------------------------

  /** The tasks the data rows (the rows after the header) give: short rows are
      skipped, fields past the third ignored, and the first done field int()
      rejects aborts the load. */
  function ParseDataRows(rows: seq<Row>): Result<seq<Task>, LoadError> {
    if rows == [] then Ok([])
    else
      match ParseDataRows(rows[..|rows| - 1])
      case Err(e) => Err(e)
      case Ok(ts) =>
        var row := rows[|rows| - 1];
        if |row| < 3 then Ok(ts)
        else
          match ParseInt(row[2])
          case None => Err(BadDoneField(row[2]))
          case Some(d) => Ok(ts + [Task(row[0], row[1], d)])
  }

  /** What load_tasks returns for the rows of an existing file: the first row
      is dropped as the header, whatever it holds. */
  function ParseRows(rows: seq<Row>): Result<seq<Task>, LoadError> {
    if rows == [] then Ok([]) else ParseDataRows(rows[1..])
  }

  /** What load_tasks returns: a missing file, an empty one and one holding only
      its first row all give the empty list. */
  function Load(file: Option<seq<Row>>): (r: Result<seq<Task>, LoadError>)
    ensures file.None? ==> r == Ok([])
    ensures file.Some? && |file.value| <= 1 ==> r == Ok([])
  {
    match file
    case None => Ok([])
    case Some(rows) => ParseRows(rows)
  }

  /** The rows of at least three fields, in order. */
  function LongRows(rows: seq<Row>): (long: seq<Row>)
    ensures forall j :: 0 <= j < |long| ==> |long[j]| >= 3
  {
    if rows == [] then []
    else LongRows(rows[..|rows| - 1]) + (if |rows[|rows| - 1]| >= 3 then [rows[|rows| - 1]] else [])
  }

  /** The task one long row stands for, when its done field is an integer. */
  function RowTask(row: Row): Task
    requires |row| >= 3 && ParseInt(row[2]).Some?
  {
    Task(row[0], row[1], ParseInt(row[2]).value)
  }

  /** ParseDataRows of one more row, unfolded. */
  lemma ParseStep(data: seq<Row>, row: Row)
    ensures ParseDataRows(data + [row]) ==
      if ParseDataRows(data).Err? || |row| < 3 then ParseDataRows(data)
      else if ParseInt(row[2]).None? then Err(BadDoneField(row[2]))
      else Ok(ParseDataRows(data).value + [RowTask(row)])
  {
    assert (data + [row])[..|data|] == data;
  }

  lemma LongRowsStep(data: seq<Row>, row: Row)
    ensures LongRows(data + [row]) == LongRows(data) + if |row| >= 3 then [row] else []
  {
    assert (data + [row])[..|data|] == data;
  }

  /** Row parsing against a positional reference: it succeeds exactly when every
      long row has an integer done field. */
  lemma {:induction false} ParseDataRowsOk(rows: seq<Row>)
    ensures var long := LongRows(rows);
      ParseDataRows(rows).Ok? <==> forall j :: 0 <= j < |long| ==> ParseInt(long[j][2]).Some?
  {
    if rows != [] {
      var init := rows[..|rows| - 1];
      var row := rows[|rows| - 1];
      assert rows == init + [row];
      ParseDataRowsOk(init);
      ParseStep(init, row);
      LongRowsStep(init, row);
      var long0 := LongRows(init);
      var long := LongRows(rows);
      assert forall j :: 0 <= j < |long0| ==> long[j] == long0[j];
      if |row| >= 3 {
        assert long[|long0|] == row;
      }
    }
  }

  /** If the data rows load, they give one task per long row, in order, from
      that row's fields 0, 1 and 2. */
  predicate GivesLongRows(rows: seq<Row>) {
    ParseDataRows(rows).Ok? ==> TasksOfRows(LongRows(rows), ParseDataRows(rows).value)
  }

  /** `ts` holds, in order, the task of each row of `long`. */
  predicate TasksOfRows(long: seq<Row>, ts: seq<Task>) {
    |ts| == |long| &&
    forall j :: 0 <= j < |long| ==>
      |long[j]| >= 3 && ParseInt(long[j][2]).Some? && ts[j] == RowTask(long[j])
  }

  lemma TasksOfRowsAppend(long: seq<Row>, ts: seq<Task>, row: Row)
    requires TasksOfRows(long, ts) && |row| >= 3 && ParseInt(row[2]).Some?
    ensures TasksOfRows(long + [row], ts + [RowTask(row)])
  {
    var long1 := long + [row];
    var ts1 := ts + [RowTask(row)];
    forall j | 0 <= j < |long1|
      ensures |long1[j]| >= 3 && ParseInt(long1[j][2]).Some? && ts1[j] == RowTask(long1[j])
    {
      if j < |long| {
        assert long1[j] == long[j] && ts1[j] == ts[j];
      }
    }
  }

  lemma GivesLongRowsStep(data: seq<Row>, row: Row)
    requires GivesLongRows(data)
    ensures GivesLongRows(data + [row])
  {
    ParseStep(data, row);
    LongRowsStep(data, row);
    if ParseDataRows(data + [row]).Ok? && |row| >= 3 {
      var ts0 := ParseDataRows(data).value;
      assert ParseDataRows(data + [row]).value == ts0 + [RowTask(row)];
      assert LongRows(data + [row]) == LongRows(data) + [row];
      TasksOfRowsAppend(LongRows(data), ts0, row);
    }
  }

  /** A load that succeeds gives one task per long row, in order, from that
      row's fields 0, 1 and 2. */
  lemma {:induction false} ParseDataRowsValue(rows: seq<Row>)
    ensures GivesLongRows(rows)
  {
    if rows != [] {
      var init := rows[..|rows| - 1];
      var row := rows[|rows| - 1];
      ParseDataRowsValue(init);
      GivesLongRowsStep(init, row);
      assert rows == init + [row];
    }
  }

  /** A load that fails reports the done field of a long row that int() rejects. */
  lemma {:induction false} ParseDataRowsErr(rows: seq<Row>)
    requires ParseDataRows(rows).Err?
    ensures var long := LongRows(rows);
      exists j :: 0 <= j < |long| && ParseInt(long[j][2]).None? &&
        ParseDataRows(rows).error == BadDoneField(long[j][2])
  {
    var init := rows[..|rows| - 1];
    var row := rows[|rows| - 1];
    assert rows == init + [row];
    ParseStep(init, row);
    LongRowsStep(init, row);
    var long0 := LongRows(init);
    var long := LongRows(rows);
    if ParseDataRows(init).Err? {
      ParseDataRowsErr(init);
      var j :| 0 <= j < |long0| && ParseInt(long0[j][2]).None? &&
        ParseDataRows(init).error == BadDoneField(long0[j][2]);
      assert ParseDataRows(rows) == ParseDataRows(init);
      assert long[j] == long0[j];
    } else {
      assert |row| >= 3 && ParseInt(row[2]).None?;
      assert ParseDataRows(rows) == Err(BadDoneField(row[2]));
      assert long == long0 + [row];
      assert long[|long0|] == row;
    }
  }

  /** Once a prefix of the data rows fails, the whole load fails with the same error. */
  lemma {:induction false} ParseDataRowsErrSticks(rows: seq<Row>, i: nat)
    requires i <= |rows| && ParseDataRows(rows[..i]).Err?
    ensures ParseDataRows(rows) == ParseDataRows(rows[..i])
  {
    if i < |rows| {
      var init := rows[..|rows| - 1];
      assert init[..i] == rows[..i];
      ParseDataRowsErrSticks(init, i);
    } else {
      assert rows[..i] == rows;
    }
  }

  /** load_tasks as the program runs it: a loop over the rows after the header,
      appending one task per long row. */
  method LoadTasks(file: Option<seq<Row>>) returns (r: Result<seq<Task>, LoadError>)
    ensures file.None? ==> r == Ok([])
    ensures file.Some? ==> r == ParseRows(file.value)
  {
    if file.None? {
      return Ok([]);
    }
    var rows := file.value;
    if rows == [] {
      return Ok([]);
    }
    var data := rows[1..];
    var tasks: seq<Task> := [];
    var i := 0;
    while i < |data|
      invariant 0 <= i <= |data|
      invariant ParseDataRows(data[..i]) == Ok(tasks)
    {
      var row := data[i];
      assert data[..i + 1][..i] == data[..i] && data[..i + 1][i] == row;
      if |row| >= 3 {
        var d := ParseInt(row[2]);
        if d.None? {
          ParseDataRowsErrSticks(data, i + 1);
          return Err(BadDoneField(row[2]));
        }
        tasks := tasks + [Task(row[0], row[1], d.value)];
      }
      i := i + 1;
    }
    assert data[..i] == data;
    return Ok(tasks);
  }

  // ---- save_tasks -----------------------------------------------------------

  /** The row save_tasks writes for a task; csv.writer turns the integer flag
      into its str(). */
  function TaskRow(t: Task): Row {
    [t.task, t.created, IntToString(t.done)]
  }

  /** One row per task, in order. */
  function DataRows(ts: seq<Task>): (rows: seq<Row>)
    ensures |rows| == |ts|
  {
    seq(|ts|, i requires 0 <= i < |ts| => TaskRow(ts[i]))
  }

  /** Everything save_tasks writes: the header, then one row per task. */
  function ToRows(ts: seq<Task>): (rows: seq<Row>)
    ensures |rows| == |ts| + 1 && rows[0] == Header
    ensures forall i :: 0 <= i < |ts| ==>
      rows[i + 1] == [ts[i].task, ts[i].created, IntToString(ts[i].done)]
  {
    [Header] + DataRows(ts)
  }

  /** save_tasks as the program runs it: the header, then a loop writing one row
      per task. */
  method SaveTasks(ts: seq<Task>) returns (rows: seq<Row>)
    ensures |rows| == |ts| + 1 && rows[0] == ["task", "created", "done"]
    ensures forall i :: 0 <= i < |ts| ==>
      rows[i + 1] == [ts[i].task, ts[i].created, IntToString(ts[i].done)]
    ensures rows == ToRows(ts)
  {
    rows := [Header];
    var i := 0;
    while i < |ts|
      invariant 0 <= i <= |ts| && |rows| == i + 1 && rows[0] == Header
      invariant forall j :: 0 <= j < i ==> rows[j + 1] == TaskRow(ts[j])
    {
      rows := rows + [TaskRow(ts[i])];
      i := i + 1;
    }
    RowsAreToRows(ts, rows);
  }

  lemma RowsAreToRows(ts: seq<Task>, rows: seq<Row>)
    requires |rows| == |ts| + 1 && rows[0] == Header
    requires forall j :: 0 <= j < |ts| ==> rows[j + 1] == TaskRow(ts[j])
    ensures rows == ToRows(ts)
  {
    var want := ToRows(ts);
    forall j | 0 <= j < |rows|
      ensures rows[j] == want[j]
    {
      if j > 0 {
        assert rows[(j - 1) + 1] == TaskRow(ts[j - 1]);
      }
    }
  }

  // ---- the two together -----------------------------------------------------

  lemma DataRowsAppend(ts: seq<Task>, t: Task)
    ensures DataRows(ts + [t]) == DataRows(ts) + [TaskRow(t)]
  {
    var ts' := ts + [t];
    assert forall i :: 0 <= i < |ts| ==> ts'[i] == ts[i];
  }

  lemma {:induction false} ParseTaskRows(ts: seq<Task>)
    ensures ParseDataRows(DataRows(ts)) == Ok(ts)
  {
    if ts != [] {
      var init := ts[..|ts| - 1];
      var t := ts[|ts| - 1];
      assert ts == init + [t];
      ParseTaskRows(init);
      DataRowsAppend(init, t);
      ParseIntOfIntToString(t.done);
      ParseStep(DataRows(init), TaskRow(t));
      assert RowTask(TaskRow(t)) == t;
    }
  }

  /** Loading what save_tasks wrote gives back the list that was saved. */
  lemma SaveThenLoad(ts: seq<Task>)
    ensures ParseRows(ToRows(ts)) == Ok(ts)
    ensures Load(Some(ToRows(ts))) == Ok(ts)
  {
    assert ToRows(ts)[1..] == DataRows(ts);
    ParseTaskRows(ts);
  }

  /** A data row save_tasks could have written: three fields, the last an
      integer in the form str() prints it (no sign but "-", no leading zero,
      no whitespace). */
  predicate CanonicalRow(row: Row) {
    |row| == 3 && CanonicalInt(row[2])
  }

  predicate CanonicalInt(s: string) {
    if |s| > 0 && s[0] == '-' then IsDigits(s[1..]) && s[1] != '0'
    else IsDigits(s) && (s[0] == '0' ==> s == "0")
  }

  /** The text str() gives an integer is read back by int() as that integer. */
  lemma CanonicalIntParses(s: string)
    requires CanonicalInt(s)
    ensures ParseInt(s).Some? && IntToString(ParseInt(s).value) == s
  {
    var n := CanonicalIntValue(s);
    ParseIntOfIntToString(n);
  }

  /** A canonical integer field is str() of some integer. */
  lemma CanonicalIntValue(s: string) returns (n: int)
    requires CanonicalInt(s)
    ensures IntToString(n) == s
  {
    if s[0] == '-' {
      var u := s[1..];
      NatToStringOfDigits(u);
      DigitsValueNonZeroLead(u);
      n := 0 - (DigitsValue(u) as int);
      assert IntToString(n) == "-" + u == s;
    } else {
      NatToStringOfDigits(s);
      n := DigitsValue(s);
    }
  }

  /** A canonical row gives a task, and that task is written back as the same row. */
  lemma CanonicalRowTask(row: Row)
    requires CanonicalRow(row)
    ensures ParseInt(row[2]).Some? && TaskRow(RowTask(row)) == row
  {
    CanonicalIntParses(row[2]);
    var n := ParseInt(row[2]).value;
    assert RowTask(row) == Task(row[0], row[1], n);
    assert TaskRow(Task(row[0], row[1], n)) == [row[0], row[1], row[2]];
    ThreeElements(row, row[0], row[1], row[2]);
  }

  /** Data rows each giving a task that is written back as the same row are
      what save_tasks writes for those tasks. */
  lemma RowsOfTheirTasks(data: seq<Row>)
    requires forall j :: 0 <= j < |data| ==>
      |data[j]| >= 3 && ParseInt(data[j][2]).Some? && TaskRow(RowTask(data[j])) == data[j]
    ensures ParseDataRows(data).Ok? && DataRows(ParseDataRows(data).value) == data
  {
    var ts := seq(|data|, j requires 0 <= j < |data| => RowTask(data[j]));
    assert DataRows(ts) == data by {
      forall j | 0 <= j < |data| ensures DataRows(ts)[j] == data[j] {
        assert ts[j] == RowTask(data[j]);
      }
    }
    ParseTaskRows(ts);
  }

  /** A file of the header and canonical rows loads, and saving the result
      writes the same rows back. */
  lemma LoadThenSave(rows: seq<Row>)
    requires |rows| > 0 && rows[0] == Header
    requires forall j :: 1 <= j < |rows| ==> CanonicalRow(rows[j])
    ensures ParseRows(rows).Ok? && ToRows(ParseRows(rows).value) == rows
  {
    var data := rows[1..];
    assert forall j :: 0 <= j < |data| ==> CanonicalRow(data[j]) by {
      forall j | 0 <= j < |data| ensures CanonicalRow(data[j]) {
        assert data[j] == rows[j + 1];
      }
    }
    CanonicalRowsOfTheirTasks(data);
    assert rows == [Header] + data;
  }

  lemma CanonicalRowsOfTheirTasks(data: seq<Row>)
    requires forall j :: 0 <= j < |data| ==> CanonicalRow(data[j])
    ensures ParseDataRows(data).Ok? && DataRows(ParseDataRows(data).value) == data
  {
    forall j | 0 <= j < |data|
      ensures |data[j]| >= 3 && ParseInt(data[j][2]).Some? && TaskRow(RowTask(data[j])) == data[j]
    {
      CanonicalRowTask(data[j]);
    }
    RowsOfTheirTasks(data);
  }


  /** A header followed by a two-field row loads as the empty list; adding a
      well-formed row gives one task with fields in place. */
  lemma ShortRowSkipped()
    ensures ParseRows([Header, ["buy milk", "2024-05-01"]]) == Ok([])
    ensures ParseRows([Header, ["buy milk", "2024-05-01"], ["call", "2024-05-02", "1"]]) ==
      Ok([Task("call", "2024-05-02", 1)])
  {
    var short: Row := ["buy milk", "2024-05-01"];
    var good: Row := ["call", "2024-05-02", "1"];
    assert [Header, short][1..] == [short];
    assert [short][..0] == [];
    assert ParseDataRows([short]) == Ok([]);
    assert [Header, short, good][1..] == [short, good];
    assert [short, good][..1] == [short];
    assert ParseInt("1") == Some(1) by {
      assert "1"[..0] == [];
      assert DigitsValue("1"[..0]) == 0;
      assert DigitsValue("1") == 1;
      ParseIntOfDigits("1");
    }
    ParseStep([short], good);
    assert [short] + [good] == [short, good];
    assert [] + [RowTask(good)] == [RowTask(good)];
    assert RowTask(good) == Task("call", "2024-05-02", 1);
    assert ParseDataRows([short, good]) == Ok([Task("call", "2024-05-02", 1)]);
    assert ParseRows([Header, short, good]) == ParseDataRows([short, good]);
  }
}
