/** What the program shows of the list: the lines list_tasks prints and the
    two counts show_diagram plots. */
module Report {
  import opened Text
  import opened Tasks

  const NoTasksYet := "No tasks yet."

  /** The check mark list_tasks shows for a task: a tick only for a flag of 1. */
  function Mark(t: Task): char {
    if t.done == 1 then '\U{2713}' else ' '
  }

  /** The line printed for task `t` under the number `n`. */
  function Line(n: nat, t: Task): string {
    NatToString(n) + (". [" + ([Mark(t)] + ("] " + (t.task + (" (created: " + t.created + ")")))))
  }

  /** The lines list_tasks prints, numbered from 1 in list order. */
  function ListLines(ts: seq<Task>): (lines: seq<string>)
    ensures ts == [] ==> lines == [NoTasksYet]
    ensures ts != [] ==> |lines| == |ts|
  {
    if ts == [] then [NoTasksYet]
    else seq(|ts|, i requires 0 <= i < |ts| => Line(i + 1, ts[i]))
  }

  /** `line` shows task `t` under the number `n`: it starts with the decimal
      digits of n, then ". [", then a tick exactly when the flag is 1 (a blank
      otherwise), then "] ", the description, and " (created: <date>)", where
      the line ends. */
  predicate ShowsTask(line: string, n: nat, t: Task) {
    var num := NatToString(n);
    var w := |num|;
    w + 6 + |t.task| <= |line| &&
    line[..w] == num && IsDigits(num) && DigitsValue(num) == n &&
    line[w..w + 3] == ". [" &&
    (line[w + 3] == '\U{2713}' <==> t.done == 1) &&
    (line[w + 3] == ' ' <==> t.done != 1) &&
    line[w + 4..w + 6] == "] " &&
    line[w + 6..w + 6 + |t.task|] == t.task &&
    line[w + 6 + |t.task|..] == " (created: " + t.created + ")"
  }

  /** The layout of one listed line. */
  lemma LineLayout(n: nat, t: Task)
    ensures ShowsTask(Line(n, t), n, t)
  {
    var num := NatToString(n);
    var line := Line(n, t);
    var r4 := t.task + (" (created: " + t.created + ")");
    var r3 := "] " + r4;
    var r2 := [Mark(t)] + r3;
    var r1 := ". [" + r2;
    assert line == num + r1;
    assert line[..|num|] == num && line[|num|..] == r1;
    assert line[|num|..|num| + 3] == ". [" by {
      assert line[|num|..|num| + 3] == r1[..3];
    }
    assert line[|num| + 3] == Mark(t) by {
      assert line[|num| + 3] == r1[3] == r2[0];
    }
    assert line[|num| + 4..|num| + 6] == "] " by {
      assert r1[3..] == r2 && r2[1..] == r3;
      assert line[|num| + 4..|num| + 6] == r3[..2];
    }
    assert line[|num| + 6..|num| + 6 + |t.task|] == t.task by {
      assert r1[3..] == r2 && r2[1..] == r3 && r3[2..] == r4;
      assert line[|num| + 6..|num| + 6 + |t.task|] == r4[..|t.task|];
    }
    assert line[|num| + 6 + |t.task|..] == " (created: " + t.created + ")" by {
      assert r1[3..] == r2 && r2[1..] == r3 && r3[2..] == r4;
      assert line[|num| + 6..] == r4;
      assert r4[|t.task|..] == " (created: " + t.created + ")";
    }
  }

  /** Line i of a non-empty listing shows task i under the number i + 1. */
  lemma ListedLine(ts: seq<Task>, i: nat)
    requires i < |ts|
    ensures ShowsTask(ListLines(ts)[i], i + 1, ts[i])
  {
    assert ListLines(ts)[i] == Line(i + 1, ts[i]);
    LineLayout(i + 1, ts[i]);
  }

  /** Typing the number a task is listed under as the index line flips that task
      and no other. */
  lemma ListedNumberSelects(ts: seq<Task>, i: nat)
    requires i < |ts|
    ensures Toggled(ts, NatToString(i + 1)) == ts[i := ts[i].(done := Flip(ts[i].done))]
  {
    var num := NatToString(i + 1);
    StripNoEdgeSpace(num);
    assert ',' !in num;
    SplitJoin([num], ',');
    assert Tokens(num) == [num];
    assert [num][..0] == [];
    assert ApplyTokens(ts, [num]) == ApplyToken(ts, num);
  }

  /** The index line "k,k" for a number k has the two tokens k and k. */
  lemma RepeatedTokens(num: string)
    requires IsDigits(num)
    ensures Tokens(num + "," + num) == [num, num]
  {
    var raw := num + "," + num;
    assert raw[0] == num[0] && raw[|raw| - 1] == num[|num| - 1];
    StripNoEdgeSpace(raw);
    assert ',' !in num;
    SplitJoin([num, num], ',');
    assert Join([num, num], ',') == raw;
  }

  lemma RepeatedHits(i: nat, k: nat)
    ensures var num := NatToString(i + 1); Hits([num, num], k) == if k == i then 2 else 0
  {
    var num := NatToString(i + 1);
    var toks := [num, num];
    StripNoEdgeSpace(num);
    assert toks[..1][..0] == [] && toks[..1] == [num];
    assert Hits(toks[..1][..0], k) == 0;
    assert Hits(toks[..1], k) == if k == i then 1 else 0;
  }

  /** Entering "k,k" for a listed number k restores every flag of 0 or 1. */
  lemma RepeatedNumberRestores(ts: seq<Task>, i: nat)
    requires i < |ts| && AllBinary(ts)
    ensures var num := NatToString(i + 1); Toggled(ts, num + "," + num) == ts
  {
    var num := NatToString(i + 1);
    var raw := num + "," + num;
    RepeatedTokens(num);
    forall k | 0 <= k < |ts| ensures Toggled(ts, raw)[k] == ts[k] {
      ToggledFlips(ts, raw, k);
      RepeatedHits(i, k);
      FlipNBinary(ts[k].done, Hits([num, num], k));
    }
  }

  // ---- show_diagram ---------------------------------------------------------

  /** The two bars show_diagram plots. */
  datatype Counts = Counts(done: int, open: int)

  /** The sum of the done flags, as show_diagram computes it. */
  function SumDone(ts: seq<Task>): int {
    if ts == [] then 0 else SumDone(ts[..|ts| - 1]) + ts[|ts| - 1].done
  }

  /** The counts show_diagram plots: the flags summed, and the rest of the length. */
  function Summary(ts: seq<Task>): (c: Counts)
    ensures c.done + c.open == |ts|
  {
    var d := SumDone(ts);
    Counts(d, |ts| - d)
  }

  /** How many tasks the listing shows with a tick. */
  function CountTicked(ts: seq<Task>): nat {
    if ts == [] then 0
    else CountTicked(ts[..|ts| - 1]) + (if Mark(ts[|ts| - 1]) == '\U{2713}' then 1 else 0)
  }

  /** With flags of 0 or 1 the bars agree with the listing: "Done" is the number
      of ticked tasks and "Open" the number of the others, both within 0 and
      the length. */
  lemma {:induction false} SummaryOfBinaryFlags(ts: seq<Task>)
    requires AllBinary(ts)
    ensures Summary(ts).done == CountTicked(ts)
    ensures 0 <= Summary(ts).done <= |ts| && 0 <= Summary(ts).open <= |ts|
  {
    if ts != [] {
      var init := ts[..|ts| - 1];
      assert AllBinary(init) by {
        forall k | 0 <= k < |init| ensures init[k].done == 0 || init[k].done == 1 {
          assert init[k] == ts[k];
        }
      }
      SummaryOfBinaryFlags(init);
    }
  }

  lemma {:induction false} SumDoneAppend(a: seq<Task>, b: seq<Task>)
    ensures SumDone(a + b) == SumDone(a) + SumDone(b)
  {
    if b == [] {
      assert a + b == a;
    } else {
      assert (a + b)[..|a + b| - 1] == a + b[..|b| - 1];
      SumDoneAppend(a, b[..|b| - 1]);
    }
  }

  lemma {:induction false} SumDoneZero(ts: seq<Task>)
    requires forall k :: 0 <= k < |ts| ==> ts[k].done == 0
    ensures SumDone(ts) == 0
  {
    if ts != [] {
      var init := ts[..|ts| - 1];
      assert forall k :: 0 <= k < |init| ==> init[k].done == 0 by {
        forall k | 0 <= k < |init| ensures init[k].done == 0 { assert init[k] == ts[k]; }
      }
      SumDoneZero(init);
    }
  }

  /** Adding tasks leaves "Done" as it was and raises "Open" by the number added. */
  lemma SummaryAfterAdd(ts: seq<Task>, text: string, today: string)
    ensures Summary(ts + NewTasks(text, today)) ==
      Counts(Summary(ts).done, Summary(ts).open + |NewTasks(text, today)|)
  {
    SumDoneAppend(ts, NewTasks(text, today));
    SumDoneZero(NewTasks(text, today));
  }

  lemma SumDoneStep(ts: seq<Task>, j: nat)
    requires j < |ts|
    ensures SumDone(ts[..j + 1]) == SumDone(ts[..j]) + ts[j].done
  {
    assert ts[..j + 1][..j] == ts[..j];
  }

  /** Five tasks of which two are done give the bars 2 and 3. */
  lemma SummaryTwoOfFive(d: string)
    ensures Summary([Task("a", d, 1), Task("b", d, 0), Task("c", d, 1), Task("e", d, 0), Task("f", d, 0)])
      == Counts(2, 3)
  {
    var ts := [Task("a", d, 1), Task("b", d, 0), Task("c", d, 1), Task("e", d, 0), Task("f", d, 0)];
    assert ts[..0] == [];
    SumDoneStep(ts, 0);
    SumDoneStep(ts, 1);
    SumDoneStep(ts, 2);
    SumDoneStep(ts, 3);
    SumDoneStep(ts, 4);
    assert ts[..5] == ts;
  }

  /** A flag of 2 read back from the file counts twice, and "Open" goes negative. */
  lemma SummaryOfForeignFlag(d: string)
    ensures Summary([Task("x", d, 2)]) == Counts(2, -1)
  {
    var ts := [Task("x", d, 2)];
    assert ts[..0] == [];
    assert SumDone(ts) == 2;
  }
}
