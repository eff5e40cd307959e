/** The task record and the list operations on values: what add_task appends
    and what update_status does to the flags. */
module Tasks {
  import opened Text

  /** One entry of the program's list: a description, the creation date as
      str(date.today()) made it, and the done flag as an integer. */
  datatype Task = Task(task: string, created: string, done: int)

  /** Every flag is 0 or 1, as the program itself only ever writes. */
  predicate AllBinary(ts: seq<Task>) {
    forall k :: 0 <= k < |ts| ==> ts[k].done == 0 || ts[k].done == 1
  }

  /** Tasks are never removed and their description and date never change:
      `after` keeps every task of `before`, in place, up to its flag. */
  predicate Extends(before: seq<Task>, after: seq<Task>) {
    |before| <= |after| &&
    forall k :: 0 <= k < |before| ==>
      after[k].task == before[k].task && after[k].created == before[k].created
  }

  // ---- add_task -------------------------------------------------------------

  /** The tasks add_task appends for the line `text` typed on day `today`. */
  function NewTasks(text: string, today: string): (added: seq<Task>)
    ensures added == [] <==> Strip(text) == []
    ensures Strip(text) != [] ==> |added| == Count(text, ',') + 1
    ensures forall i :: 0 <= i < |added| ==>
      added[i].created == today && added[i].done == 0 &&
      ',' !in added[i].task && Strip(added[i].task) == added[i].task
  {
    var t := Strip(text);
    if t == [] then []
    else
      var segs := Split(t, ',');
      StripKeeps(text, ',');
      var added := seq(|segs|, i requires 0 <= i < |segs| => Task(Strip(segs[i]), today, 0));
      assert forall i :: 0 <= i < |added| ==> ',' !in added[i].task by {
        forall i | 0 <= i < |added| ensures ',' !in added[i].task {
          StripInfix(segs[i], ',');
        }
      }
      assert forall i :: 0 <= i < |added| ==> Strip(added[i].task) == added[i].task by {
        forall i | 0 <= i < |added| ensures Strip(added[i].task) == added[i].task {
          StripIdempotent(segs[i]);
        }
      }
      added
  }

  /** NewTasks unfolded: for a non-blank line, one task per segment of the
      trimmed line. */
  lemma NewTasksShape(text: string, today: string)
    requires Strip(text) != []
    ensures var segs := Split(Strip(text), ',');
      |NewTasks(text, today)| == |segs| &&
      forall i :: 0 <= i < |segs| ==> NewTasks(text, today)[i] == Task(Strip(segs[i]), today, 0)
  {
  }

  lemma StripInfix(s: string, c: char)
    requires c !in s
    ensures c !in Strip(s)
  {
    var r := Strip(s);
    forall k | 0 <= k < |r| ensures r[k] != c {
      assert r[k] == s[StripStart(s) + k];
    }
  }

  /** The descriptions added are exactly the trimmed comma-separated segments of
      the trimmed line, in order: whichever segments join with commas into that
      line, one task per segment. */
  lemma {:induction false} NewTasksOfSegments(text: string, today: string, segs: seq<string>)
    requires |segs| > 0 && forall i :: 0 <= i < |segs| ==> ',' !in segs[i]
    requires Strip(text) == Join(segs, ',') && Strip(text) != []
    ensures |NewTasks(text, today)| == |segs|
    ensures forall i :: 0 <= i < |segs| ==>
      NewTasks(text, today)[i] == Task(Strip(segs[i]), today, 0)
  {
    SplitJoin(segs, ',');
  }

  /** "a, b ,c" adds the three tasks "a", "b" and "c". */
  lemma AddThree(today: string)
    ensures NewTasks("a, b ,c", today) ==
      [Task("a", today, 0), Task("b", today, 0), Task("c", today, 0)]
  {
    var text := "a, b ,c";
    var segs := ["a", " b ", "c"];
    assert Join(segs, ',') == text;
    StripNoEdgeSpace(text);
    StripNoEdgeSpace("a");
    StripNoEdgeSpace("c");
    assert Strip(" b ") == "b" by {
      assert StripStart(" b ") == 1;
      assert StripStop(" b ", 1, 3) == 2;
    }
    NewTasksOfSegments(text, today, segs);
    var added := NewTasks(text, today);
    assert added[0] == Task("a", today, 0) by { assert segs[0] == "a"; }
    assert added[1] == Task("b", today, 0) by { assert segs[1] == " b "; }
    assert added[2] == Task("c", today, 0) by { assert segs[2] == "c"; }
    ThreeElements(added, Task("a", today, 0), Task("b", today, 0), Task("c", today, 0));
  }

  lemma ThreeElements<T>(s: seq<T>, a: T, b: T, c: T)
    requires |s| == 3 && s[0] == a && s[1] == b && s[2] == c
    ensures s == [a, b, c]
  {
  }

  /** Empty segments are kept: "a,,b" adds three tasks, the middle one with an
      empty description. */
  lemma EmptySegmentKept(today: string)
    ensures |NewTasks("a,,b", today)| == 3 && NewTasks("a,,b", today)[1].task == ""
  {
    var segs := ["a", "", "b"];
    assert Join(segs, ',') == "a,,b";
    StripNoEdgeSpace("a,,b");
    StripNoEdgeSpace("");
    NewTasksOfSegments("a,,b", today, segs);
  }

  // ---- update_status --------------------------------------------------------

  /** The new flag update_status gives a task it selects. */
  function Flip(d: int): (r: int)
    ensures r == 0 || r == 1
    ensures d == 0 || d == 1 ==> r == 1 - d
  {
    if d == 1 then 0 else 1
  }

  /** The flag after `n` flips. */
  function FlipN(d: int, n: nat): int {
    if n == 0 then d else Flip(FlipN(d, n - 1))
  }

  /** A binary flag flipped n times depends only on the parity of n. */
  lemma {:induction false} FlipNBinary(d: int, n: nat)
    requires d == 0 || d == 1
    ensures FlipN(d, n) == if n % 2 == 0 then d else 1 - d
  {
    if n > 0 {
      FlipNBinary(d, n - 1);
    }
  }

  /** A token of the index line selects position k (0-based) when, trimmed, it
      is all digits and its value is k + 1. */
  predicate Selects(tok: string, k: nat) {
    var p := Strip(tok);
    IsDigits(p) && DigitsValue(p) == k + 1
  }

  /** The list after one token of the index line. */
  function ApplyToken(ts: seq<Task>, tok: string): (r: seq<Task>)
    ensures |r| == |ts|
    ensures forall k :: 0 <= k < |ts| ==>
      r[k] == if Selects(tok, k) then ts[k].(done := Flip(ts[k].done)) else ts[k]
  {
    var p := Strip(tok);
    if IsDigits(p) && 1 <= DigitsValue(p) <= |ts| then
      var i := DigitsValue(p) - 1;
      ts[i := ts[i].(done := Flip(ts[i].done))]
    else ts
  }

  /** The list after the tokens, applied left to right. */
  function ApplyTokens(ts: seq<Task>, toks: seq<string>): (r: seq<Task>)
    ensures |r| == |ts|
    ensures forall k :: 0 <= k < |ts| ==> r[k].task == ts[k].task && r[k].created == ts[k].created
  {
    if toks == [] then ts else ApplyToken(ApplyTokens(ts, toks[..|toks| - 1]), toks[|toks| - 1])
  }

  /** The tokens of an index line: the trimmed line split at commas. */
  function Tokens(raw: string): seq<string> {
    Split(Strip(raw), ',')
  }

  /** The list update_status leaves for the index line `raw`; on an empty list
      it returns before reading any line. */
  function Toggled(ts: seq<Task>, raw: string): (r: seq<Task>)
    ensures |r| == |ts|
    ensures forall k :: 0 <= k < |ts| ==> r[k].task == ts[k].task && r[k].created == ts[k].created
    ensures ts == [] ==> r == ts
  {
    if ts == [] then ts else ApplyTokens(ts, Tokens(raw))
  }

  /** How many of the tokens select position k. */
  function Hits(toks: seq<string>, k: nat): nat {
    if toks == [] then 0
    else Hits(toks[..|toks| - 1], k) + (if Selects(toks[|toks| - 1], k) then 1 else 0)
  }

  /** Each task's flag has been flipped once per token that selects it, and no
      other field has changed. */
  lemma {:induction false} ApplyTokensFlips(ts: seq<Task>, toks: seq<string>, k: nat)
    requires k < |ts|
    ensures ApplyTokens(ts, toks)[k] == ts[k].(done := FlipN(ts[k].done, Hits(toks, k)))
  {
    if toks != [] {
      var init := toks[..|toks| - 1];
      var last := toks[|toks| - 1];
      ApplyTokensFlips(ts, init, k);
      var mid := ApplyTokens(ts, init);
      assert ApplyTokens(ts, toks) == ApplyToken(mid, last);
      assert Hits(toks, k) == Hits(init, k) + (if Selects(last, k) then 1 else 0);
      assert ApplyToken(mid, last)[k] == if Selects(last, k) then mid[k].(done := Flip(mid[k].done)) else mid[k];
    }
  }

  /** update_status in terms of the index line: every token that selects task k
      flips it once, whatever the order; the rest is left alone. */
  lemma ToggledFlips(ts: seq<Task>, raw: string, k: nat)
    requires k < |ts|
    ensures Toggled(ts, raw)[k] == ts[k].(done := FlipN(ts[k].done, Hits(Tokens(raw), k)))
  {
    ApplyTokensFlips(ts, Tokens(raw), k);
  }

  /** A task that some token selects ends with a flag of 0 or 1, and flags of 0
      or 1 stay so. */
  lemma {:induction false} FlipNIsBinary(d: int, n: nat)
    requires n > 0 || d == 0 || d == 1
    ensures FlipN(d, n) == 0 || FlipN(d, n) == 1
  {
    if n > 1 { FlipNIsBinary(d, n - 1); }
  }

  lemma ToggledBinary(ts: seq<Task>, raw: string)
    requires AllBinary(ts)
    ensures AllBinary(Toggled(ts, raw))
  {
    forall k | 0 <= k < |ts| ensures Toggled(ts, raw)[k].done == 0 || Toggled(ts, raw)[k].done == 1 {
      ToggledFlips(ts, raw, k);
      FlipNIsBinary(ts[k].done, Hits(Tokens(raw), k));
    }
  }

  /** Tokens that select nothing (not all digits, "0", or past the end of the
      list) are ignored without error. */
  lemma {:induction false} HitsNone(toks: seq<string>, n: nat, k: nat)
    requires k < n
    requires forall i :: 0 <= i < |toks| ==>
      !IsDigits(Strip(toks[i])) || DigitsValue(Strip(toks[i])) == 0 || DigitsValue(Strip(toks[i])) > n
    ensures Hits(toks, k) == 0
  {
    if toks != [] {
      HitsNone(toks[..|toks| - 1], n, k);
    }
  }

  lemma ToggledIgnores(ts: seq<Task>, raw: string)
    requires forall i :: 0 <= i < |Tokens(raw)| ==>
      var p := Strip(Tokens(raw)[i]);
      !IsDigits(p) || DigitsValue(p) == 0 || DigitsValue(p) > |ts|
    ensures Toggled(ts, raw) == ts
  {
    forall k | 0 <= k < |ts| ensures Toggled(ts, raw)[k] == ts[k] {
      HitsNone(Tokens(raw), |ts|, k);
      ToggledFlips(ts, raw, k);
    }
  }

  /** Entering the same index line twice restores every flag, when the flags
      are 0 or 1 (a flag of 2 would come back as 0). */
  lemma ToggleTwiceRestores(ts: seq<Task>, raw: string)
    requires AllBinary(ts)
    ensures Toggled(Toggled(ts, raw), raw) == ts
  {
    var once := Toggled(ts, raw);
    forall k | 0 <= k < |ts| ensures Toggled(once, raw)[k] == ts[k] {
      var h := Hits(Tokens(raw), k);
      ToggledFlips(ts, raw, k);
      ToggledFlips(once, raw, k);
      FlipNBinary(ts[k].done, h);
      FlipNBinary(once[k].done, h);
    }
  }

  lemma FlipTwiceNonBinary()
    ensures Flip(Flip(2)) == 0
  {
  }
}
