/** Splitting a SQL script into executable commands
    (`OraclePlantDataProvider.GetCommandsFromScript`).

    The script first loses its line continuations (a backslash, an optional
    carriage return and a line feed). It is then split at the batch-separator
    lines `GO` and `GO <n>`. `Regex.Split` with a capturing group leaves the
    captured separator tokens in the array, between the segments. The regular
    expression engine is not modelled: the split is a parameter, and everything
    after it is stated on the array it returns. */
module ScriptBatching {
  import opened Text

  /** Length of the line continuation (`\\\n` or `\\\r\n`) at the front of s, or 0. */
  function ContinuationAt(s: string): (c: nat)
    ensures c == 0 || c == 2 || c == 3
    ensures c <= |s|
  {
    if |s| >= 2 && s[0] == '\\' && s[1] == '\n' then 2
    else if |s| >= 3 && s[0] == '\\' && s[1] == '\r' && s[2] == '\n' then 3
    else 0
  }

  /** `Regex.Replace(sql, @"\\\r?\n", "")`. Scanning resumes after each deleted
      match, so a continuation formed by joining two lines is kept. */
  function StripContinuations(s: string): (r: string)
    ensures |r| <= |s|
  {
    if |s| == 0 then []
    else if ContinuationAt(s) > 0 then StripContinuations(s[ContinuationAt(s)..])
    else [s[0]] + StripContinuations(s[1..])
  }

  /** A split element that yields no command: blank, or a separator token. */
  predicate Skipped(batch: string)
    ensures |batch| == 0 ==> Skipped(batch)
    ensures !Skipped(batch) ==> exists i :: 0 <= i < |batch| && !IsWhiteSpace(batch[i])
  {
    IsBlank(batch) || StartsWithGo(batch)
  }

  /** How often element i is repeated: the first digit run of the following
      separator token, and 1 when there is no such token or it has no digit. */
  function RepeatCount(batches: seq<string>, i: nat): (n: nat)
    requires i < |batches|
    ensures n != 1 ==> i + 1 < |batches| && StartsWithGo(batches[i + 1]) && FirstDigitRun(batches[i + 1]) == Some(n)
  {
    if i != |batches| - 1 && StartsWithGo(batches[i + 1]) then
      match FirstDigitRun(batches[i + 1])
      case Some(n) => n
      case None => 1
    else 1
  }

  /** t appended n times to an empty builder. */
  function Repeat(t: string, n: nat): (r: string)
    ensures |r| == n * |t|
  {
    if n == 0 then [] else Repeat(t, n - 1) + t
  }

  /** What the builder holds for element i: its text, followed by the line
      terminator only when i is the last element, appended RepeatCount times. */
  function BatchCommand(batches: seq<string>, i: nat, newLine: string): (r: string)
    requires i < |batches|
    ensures i == |batches| - 1 ==> r == batches[i] + newLine
    ensures i < |batches| - 1 ==> r == Repeat(batches[i], RepeatCount(batches, i))
  {
    var piece := if i == |batches| - 1 then batches[i] + newLine else batches[i];
    assert Repeat(piece, 1) == Repeat(piece, 0) + piece;
    Repeat(piece, RepeatCount(batches, i))
  }

  /** The commands that elements 0 .. k-1 produce, in order. */
  function CommandsUpTo(batches: seq<string>, k: nat, newLine: string): seq<string>
    requires k <= |batches|
  {
    if k == 0 then []
    else
      CommandsUpTo(batches, k - 1, newLine)
      + (if Skipped(batches[k - 1]) then [] else [BatchCommand(batches, k - 1, newLine)])
  }

  /** The command list built from a whole split array. */
  function BatchCommands(batches: seq<string>, newLine: string): seq<string> {
    CommandsUpTo(batches, |batches|, newLine)
  }

  /** The positions among 0 .. k-1 whose element yields a command, in order. */
  function KeptUpTo(batches: seq<string>, k: nat): seq<nat>
    requires k <= |batches|
  {
    if k == 0 then []
    else KeptUpTo(batches, k - 1) + (if Skipped(batches[k - 1]) then [] else [k - 1])
  }

  function Kept(batches: seq<string>): seq<nat> {
    KeptUpTo(batches, |batches|)
  }

  /** `GetCommandsFromScript`: the loop over the split array, with the inner
      loop that fills the builder. `split` stands for `Regex.Split` with the
      separator pattern; `newLine` for `Environment.NewLine`. */
  method GetCommandsFromScript(sql: string, split: string -> seq<string>, newLine: string)
    returns (commands: seq<string>)
    ensures commands == BatchCommands(split(StripContinuations(sql)), newLine)
  {
    var script := StripContinuations(sql);
    var batches := split(script);
    commands := [];
    var i := 0;
    while i < |batches|
      invariant 0 <= i <= |batches|
      invariant commands == CommandsUpTo(batches, i, newLine)
    {
      if IsBlank(batches[i]) || StartsWithGo(batches[i]) {
        assert CommandsUpTo(batches, i + 1, newLine) == CommandsUpTo(batches, i, newLine);
        i := i + 1;
        continue;
      }
      var count := 1;
      if i != |batches| - 1 && StartsWithGo(batches[i + 1]) {
        var m := FirstDigitRun(batches[i + 1]);
        if m.Some? {
          count := m.value;
        }
      }
      assert count == RepeatCount(batches, i);
      ghost var piece := if i == |batches| - 1 then batches[i] + newLine else batches[i];
      var builder := "";
      var j := 0;
      while j < count
        invariant 0 <= j <= count
        invariant builder == Repeat(piece, j)
      {
        ghost var before := builder;
        builder := builder + batches[i];
        if i == |batches| - 1 {
          builder := builder + newLine;
          assert builder == before + piece;
        }
        j := j + 1;
      }
      assert builder == BatchCommand(batches, i, newLine);
      assert CommandsUpTo(batches, i + 1, newLine) == CommandsUpTo(batches, i, newLine) + [builder];
      commands := commands + [builder];
      i := i + 1;
    }
  }

  // ---------------------------------------------------------------------
  // Continuation removal

  /** A script without a backslash is left as it is. */
  lemma {:induction false} StripWithoutBackslash(s: string)
    requires forall i :: 0 <= i < |s| ==> s[i] != '\\'
    ensures StripContinuations(s) == s
  {
    if |s| > 0 {
      assert ContinuationAt(s) == 0;
      StripWithoutBackslash(s[1..]);
    }
  }

  /** A backslash that does not start a continuation stays in the script. */
  lemma LoneBackslashKept(b: string)
    requires !(|b| > 0 && b[0] == '\n') && !(|b| > 1 && b[0] == '\r' && b[1] == '\n')
    ensures StripContinuations("\\" + b) == "\\" + StripContinuations(b)
  {
    assert ("\\" + b)[1..] == b;
  }

  /** Text that starts with a backslash, put after a non-empty a, does not
      change whether a starts with a continuation. */
  lemma ContinuationAtBeforeBackslash(a: string, t: string)
    requires |a| > 0 && |t| > 0 && t[0] == '\\'
    ensures ContinuationAt(a + t) == ContinuationAt(a)
  {
    var s := a + t;
    assert s[0] == a[0];
    if |a| == 1 {
      assert s[1] == '\\';
    } else if |a| == 2 {
      assert s[1] == a[1] && s[2] == '\\';
    } else {
      assert s[1] == a[1] && s[2] == a[2];
    }
  }

  /** Stripping a + t, for t starting with a backslash, strips a on its own
      and then t: no match of a reaches into t. */
  lemma {:induction false} StripBeforeBackslash(a: string, t: string)
    requires |t| > 0 && t[0] == '\\'
    ensures StripContinuations(a + t) == StripContinuations(a) + StripContinuations(t)
  {
    if |a| > 0 {
      var s := a + t;
      ContinuationAtBeforeBackslash(a, t);
      var c := ContinuationAt(a);
      if c > 0 {
        assert s[c..] == a[c..] + t;
        StripBeforeBackslash(a[c..], t);
      } else {
        assert s[1..] == a[1..] + t;
        StripBeforeBackslash(a[1..], t);
      }
    } else {
      assert a + t == t;
    }
  }

  /** A backslash followed by a line feed is deleted wherever it stands. */
  lemma StripDeletesLfContinuation(a: string, b: string)
    ensures StripContinuations(a + "\\\n" + b) == StripContinuations(a) + StripContinuations(b)
  {
    var t := "\\\n" + b;
    assert a + "\\\n" + b == a + t;
    StripBeforeBackslash(a, t);
    assert ContinuationAt(t) == 2 && t[2..] == b;
  }

  /** The same for a backslash, a carriage return and a line feed. */
  lemma StripDeletesCrLfContinuation(a: string, b: string)
    ensures StripContinuations(a + "\\\r\n" + b) == StripContinuations(a) + StripContinuations(b)
  {
    var t := "\\\r\n" + b;
    assert a + "\\\r\n" + b == a + t;
    StripBeforeBackslash(a, t);
    assert ContinuationAt(t) == 3 && t[3..] == b;
  }

  // ---------------------------------------------------------------------
  // Which elements produce commands, and in what order

  /** Kept lists exactly the non-skipped positions, in increasing order. */
  lemma {:induction false} KeptUpToExactly(batches: seq<string>, k: nat)
    requires k <= |batches|
    ensures forall i: nat :: i in KeptUpTo(batches, k) <==> i < k && !Skipped(batches[i])
    ensures forall x :: 0 <= x < |KeptUpTo(batches, k)| ==> KeptUpTo(batches, k)[x] < k
    ensures forall x, y :: 0 <= x < y < |KeptUpTo(batches, k)| ==> KeptUpTo(batches, k)[x] < KeptUpTo(batches, k)[y]
  {
    if k > 0 {
      KeptUpToExactly(batches, k - 1);
    }
  }

  /** Each kept position yields exactly one command, in order, and nothing else does. */
  lemma {:induction false} CommandsUpToFollowKept(batches: seq<string>, k: nat, newLine: string)
    requires k <= |batches|
    ensures |CommandsUpTo(batches, k, newLine)| == |KeptUpTo(batches, k)|
    ensures forall j :: 0 <= j < |KeptUpTo(batches, k)| ==>
      KeptUpTo(batches, k)[j] < |batches| &&
      CommandsUpTo(batches, k, newLine)[j] == BatchCommand(batches, KeptUpTo(batches, k)[j], newLine)
  {
    if k > 0 {
      CommandsUpToFollowKept(batches, k - 1, newLine);
    }
  }

  /** The whole command list: one command per element that is neither blank
      nor a separator token, in the elements' order. */
  lemma BatchCommandsFollowKept(batches: seq<string>, newLine: string)
    ensures forall i: nat :: i in Kept(batches) <==> i < |batches| && !Skipped(batches[i])
    ensures forall x, y :: 0 <= x < y < |Kept(batches)| ==> Kept(batches)[x] < Kept(batches)[y]
    ensures |BatchCommands(batches, newLine)| == |Kept(batches)|
    ensures forall j :: 0 <= j < |Kept(batches)| ==>
      Kept(batches)[j] < |batches| &&
      BatchCommands(batches, newLine)[j] == BatchCommand(batches, Kept(batches)[j], newLine)
  {
    KeptUpToExactly(batches, |batches|);
    CommandsUpToFollowKept(batches, |batches|, newLine);
  }

  /** No element survives, so no command: in particular the empty script, which
      `Regex.Split` turns into the one-element array [""]. */
  lemma {:induction false} AllSkippedNoCommands(batches: seq<string>, k: nat, newLine: string)
    requires k <= |batches|
    requires forall i :: 0 <= i < k ==> Skipped(batches[i])
    ensures CommandsUpTo(batches, k, newLine) == []
  {
    if k > 0 {
      AllSkippedNoCommands(batches, k - 1, newLine);
    }
  }

  lemma EmptyScriptNoCommands(newLine: string)
    ensures BatchCommands([], newLine) == []
    ensures BatchCommands([""], newLine) == []
  {
    assert Skipped("");
    assert CommandsUpTo([""], 1, newLine) == CommandsUpTo([""], 0, newLine) + [];
  }

  // ---------------------------------------------------------------------
  // Repeat counts and the line terminator

  /** Block q of Repeat(t, n) is t. */
  lemma {:induction false} RepeatBlock(t: string, n: nat, q: nat)
    requires q < n
    ensures (q + 1) * |t| <= |Repeat(t, n)|
    ensures Repeat(t, n)[q * |t| .. (q + 1) * |t|] == t
  {
    var r := Repeat(t, n);
    var front := Repeat(t, n - 1);
    var lo, hi := q * |t|, (q + 1) * |t|;
    assert r == front + t;
    assert hi == lo + |t| by { MulSucc(q, |t|); }
    if q == n - 1 {
      assert lo == |front|;
    } else {
      RepeatBlock(t, n - 1, q);
      assert r[lo..hi] == front[lo..hi];
    }
  }

  /** Block q of r, of the length of t, is t. */
  ghost predicate IsBlock(r: string, t: string, q: nat) {
    (q + 1) * |t| <= |r| && r[q * |t| .. (q + 1) * |t|] == t
  }

  /** Every block of Repeat(t, n) is t. */
  lemma RepeatBlocks(t: string, n: nat)
    ensures forall q :: 0 <= q < n ==> IsBlock(Repeat(t, n), t, q)
  {
    forall q | 0 <= q < n
      ensures IsBlock(Repeat(t, n), t, q)
    {
      RepeatBlock(t, n, q);
    }
  }

  /** A non-last element followed by a separator token whose first digit run
      reads n becomes ONE command: its text n times over, with no terminator.
      `GO 0` therefore yields the empty command. */
  lemma RepeatedBatch(batches: seq<string>, i: nat, n: nat, newLine: string)
    requires i + 1 < |batches|
    requires StartsWithGo(batches[i + 1]) && FirstDigitRun(batches[i + 1]) == Some(n)
    ensures BatchCommand(batches, i, newLine) == Repeat(batches[i], n)
    ensures |BatchCommand(batches, i, newLine)| == n * |batches[i]|
    ensures forall q :: 0 <= q < n ==> IsBlock(BatchCommand(batches, i, newLine), batches[i], q)
    ensures n == 0 ==> BatchCommand(batches, i, newLine) == ""
  {
    assert RepeatCount(batches, i) == n;
    assert BatchCommand(batches, i, newLine) == Repeat(batches[i], n);
    RepeatBlocks(batches[i], n);
  }

  /** The separator written `GO <n>` repeats the element n times. */
  lemma GoWithCount(batches: seq<string>, i: nat, n: nat, newLine: string)
    requires i + 1 < |batches|
    requires batches[i + 1] == "GO " + DecimalDigits(n)
    ensures BatchCommand(batches, i, newLine) == Repeat(batches[i], n)
  {
    FirstDigitRunOfDecimal("GO ", n, "");
    assert "GO " + DecimalDigits(n) + "" == batches[i + 1];
  }

  /** A non-last element followed by anything but a counted separator is
      copied once, without terminator. */
  lemma SingleBatch(batches: seq<string>, i: nat, newLine: string)
    requires i + 1 < |batches|
    requires !StartsWithGo(batches[i + 1]) || FirstDigitRun(batches[i + 1]).None?
    ensures BatchCommand(batches, i, newLine) == batches[i]
  {
    assert Repeat(batches[i], 1) == Repeat(batches[i], 0) + batches[i];
  }

  /** The last element has no successor, so its count is 1 and it gets the
      terminator exactly once; when it is kept, it is the last command. */
  lemma LastBatchTerminated(batches: seq<string>, newLine: string)
    requires |batches| > 0 && !Skipped(batches[|batches| - 1])
    ensures BatchCommand(batches, |batches| - 1, newLine) == batches[|batches| - 1] + newLine
    ensures |BatchCommands(batches, newLine)| > 0
    ensures BatchCommands(batches, newLine)[|BatchCommands(batches, newLine)| - 1]
         == batches[|batches| - 1] + newLine
  {
    var last := batches[|batches| - 1] + newLine;
    assert Repeat(last, 1) == Repeat(last, 0) + last;
  }

  /** A script without separators that splits into one non-blank element gives
      one command: that element with the terminator. */
  lemma SingleSegmentScript(segment: string, newLine: string)
    requires !Skipped(segment)
    ensures BatchCommands([segment], newLine) == [segment + newLine]
  {
    LastBatchTerminated([segment], newLine);
    assert BatchCommands([segment], newLine) == CommandsUpTo([segment], 0, newLine) + [BatchCommand([segment], 0, newLine)];
  }

  /** Two statements separated by `GO` and terminated by `GO 2`: with the
      count 2 the second statement is doubled inside ONE command, so the
      script gives two commands, not three. */
  lemma {:induction false} GoThenGoTwo(first: string, second: string, newLine: string)
    requires !Skipped(first) && !Skipped(second)
    ensures BatchCommands([first, "GO", second, "GO 2", ""], newLine) == [first, second + second]
  {
    var b := [first, "GO", second, "GO 2", ""];
    assert CommandsUpTo(b, 1, newLine) == [first] by {
      assert FirstDigitRun(b[1]).None? by {
        assert !IsDigit(b[1][0]) && !IsDigit(b[1][1]);
      }
      SingleBatch(b, 0, newLine);
    }
    assert CommandsUpTo(b, 2, newLine) == [first] by {
      assert Skipped(b[1]);
    }
    assert CommandsUpTo(b, 3, newLine) == [first, second + second] by {
      GoWithCount(b, 2, 2, newLine);
      assert Repeat(second, 2) == second + second by {
        assert Repeat(second, 1) == Repeat(second, 0) + second;
      }
    }
    assert CommandsUpTo(b, 4, newLine) == [first, second + second] by {
      assert Skipped(b[3]);
    }
    assert Skipped(b[4]);
  }

  /** The script "INSERT INTO A VALUES (1)\nGO\nINSERT INTO A VALUES (2)\nGO 2\n"
      splits into the five elements below and gives two commands. */
  lemma TwoInsertsExample(newLine: string)
    ensures var first, second := "INSERT INTO A VALUES (1)\n", "INSERT INTO A VALUES (2)\n";
      BatchCommands([first, "GO", second, "GO 2", ""], newLine) == [first, second + second]
  {
    var first, second := "INSERT INTO A VALUES (1)\n", "INSERT INTO A VALUES (2)\n";
    assert !Skipped(first) by { assert !IsWhiteSpace(first[0]); }
    assert !Skipped(second) by { assert !IsWhiteSpace(second[0]); }
    GoThenGoTwo(first, second, newLine);
  }
}
