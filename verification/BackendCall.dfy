/** A pending backend3 call: output is collected and scanned as it arrives, and answered once. */
module BackendCall {
  import opened Lists
  import opened Characters
  import opened BackendAnswer
  import opened BackendScanner
  import opened BackendParser
  import opened BackendRoundTrip

  /** A call as a value: the output so far, the flags, and what has been sent back. */
  datatype Call = Call(bytes: string, flags: Scan, replies: seq<seq<Dict>>)

  const FRESH := Call("", START, [])

  /** One line from the channel, with the byte in front of its buffer. */
  function Served(c: Call, line: string, before: char): Call {
    if line == "" || c.flags.done then c
    else
      var bytes := c.bytes + line;
      var flags := Run(c.flags, before, line).(failed := false);
      Call(bytes, flags, if flags.done then c.replies + [Dicts(bytes)] else c.replies)
  }

  class MethodData {
    var stdoutBytes: string
    var stdoutDone: bool
    var innerBrackets: bool
    var outerBrackets: bool
    var doubleQuotes: bool
    var quotes: bool
    var replies: seq<seq<Dict>>

    constructor ()
      ensures View() == FRESH
    {
      stdoutBytes, replies := "", [];
      stdoutDone, innerBrackets, outerBrackets, doubleQuotes, quotes := false, false, false, false, false;
    }

    function Flags(): Scan
      reads this
    {
      Scan(stdoutDone, innerBrackets, outerBrackets, doubleQuotes, quotes, false)
    }

    function View(): Call
      reads this
    {
      Call(stdoutBytes, Flags(), replies)
    }

    /** Scans one buffer; on a bracket error the rest of it is left alone. */
    method CheckStdoutChars(buf: string, before: char)
      requires !stdoutDone
      modifies this`stdoutDone, this`innerBrackets, this`outerBrackets, this`doubleQuotes, this`quotes
      ensures Flags() == Run(old(Flags()), before, buf).(failed := false)
    {
      ghost var start := Flags();
      assert buf[..0] == "";
      for i := 0 to |buf|
        invariant Flags() == Run(start, before, buf[..i])
      {
        var p := buf[i];
        var prev := if i == 0 then before else buf[i - 1];
        assert buf[..i + 1][..i] == buf[..i];
        assert prev == Last(before, buf[..i]);
        if doubleQuotes && p != '"' {
          continue;
        }
        if quotes && p != '\'' {
          continue;
        }
        if p == '"' && prev != '\\' {
          doubleQuotes := !doubleQuotes;
        }
        if p == '\'' && prev != '\\' {
          quotes := !quotes;
        }
        if p == '(' {
          if !outerBrackets {
            outerBrackets := true;
          } else if !innerBrackets {
            innerBrackets := true;
          } else {
            stdoutDone := true;
            FailedStays(start, before, buf, i + 1);
            return;
          }
        }
        if p == ')' {
          if innerBrackets {
            innerBrackets := false;
          } else if outerBrackets {
            stdoutDone := true;
          } else {
            stdoutDone := true;
            FailedStays(start, before, buf, i + 1);
            return;
          }
        }
      }
      assert buf[..|buf|] == buf;
    }

    /** The channel callback on a line that could be read. */
    method OnChildStdout(line: string, before: char)
      modifies this
      ensures View() == Served(old(View()), line, before)
    {
      if line != "" && !stdoutDone {
        stdoutBytes := stdoutBytes + line;
        CheckStdoutChars(line, before);
        if stdoutDone {
          var b := new Builder();
          AddData(b, stdoutBytes);
          replies := replies + [b.dicts];
        }
      }
    }
  }

  lemma {:induction false} FailedStays(s: Scan, prev: char, text: string, i: nat)
    requires i <= |text| && Run(s, prev, text[..i]).failed
    ensures Run(s, prev, text) == Run(s, prev, text[..i])
    decreases |text| - i
  {
    if i == |text| {
      assert text[..i] == text;
    } else {
      assert text[..i + 1][..i] == text[..i];
      FailedStays(s, prev, text, i + 1);
    }
  }

  // ---------- the whole exchange ----------

  function ServedAll(c: Call, lines: seq<string>, before: seq<char>): Call
    requires |before| == |lines|
  {
    if lines == [] then c
    else
      var n := |lines| - 1;
      Served(ServedAll(c, lines[..n], before[..n]), lines[n], before[n])
  }

  lemma QuietPrefix(s: Scan, prev: char, a: string, b: string)
    requires Quiet(s, prev, a + b)
    ensures Quiet(s, prev, a) && !Run(s, prev, a).done && !Run(s, prev, a + b).done
  {
    forall j | 0 <= j <= |a|
      ensures !Run(s, prev, a[..j]).done
    {
      assert a[..j] == (a + b)[..j];
    }
    assert a[..|a|] == a && (a + b)[..|a + b|] == a + b;
  }

  lemma {:induction false} FailedMeansDone(s: Scan, prev: char, text: string)
    requires s.failed ==> s.done
    ensures Run(s, prev, text).failed ==> Run(s, prev, text).done
    decreases |text|
  {
    if text != "" {
      FailedMeansDone(s, prev, text[..|text| - 1]);
    }
  }

  /** As long as no line completes the answer, lines are only collected. */
  lemma {:induction false} Collecting(lines: seq<string>, before: seq<char>)
    requires |before| == |lines| && CutAtLineEnds(lines)
    requires forall j | 0 <= j < |lines| :: before[j] != '\\'
    requires Quiet(START, '\n', Concat(lines))
    ensures ServedAll(FRESH, lines, before) == Call(Concat(lines), Run(START, '\n', Concat(lines)), [])
    decreases |lines|
  {
    if lines != [] {
      var n := |lines| - 1;
      var front := Concat(lines[..n]);
      QuietPrefix(START, '\n', front, lines[n]);
      Collecting(lines[..n], before[..n]);
      OneLineMore(lines, before);
      FailedMeansDone(START, '\n', Concat(lines));
    }
  }

  lemma FewerLines(lines: seq<string>)
    requires lines != [] && CutAtLineEnds(lines)
    ensures CutAtLineEnds(lines[..|lines| - 1]) && lines[|lines| - 1] != ""
  {
  }

  lemma LastServed(lines: seq<string>, before: seq<char>)
    requires lines != [] && |before| == |lines| && lines[|lines| - 1] != ""
    ensures var n := |lines| - 1;
            var c := ServedAll(FRESH, lines[..n], before[..n]);
            var flags := Run(c.flags, before[n], lines[n]).(failed := false);
            !c.flags.done ==>
              ServedAll(FRESH, lines, before) ==
              Call(c.bytes + lines[n], flags, if flags.done then c.replies + [Dicts(c.bytes + lines[n])] else c.replies)
  {
    hide Run, Dicts;
  }

  /** One line on top of lines that have only been collected. */
  lemma OneLineMore(lines: seq<string>, before: seq<char>)
    requires lines != [] && |before| == |lines| && CutAtLineEnds(lines)
    requires forall j | 0 <= j < |lines| :: before[j] != '\\'
    requires var n := |lines| - 1; var front := Concat(lines[..n]);
             ServedAll(FRESH, lines[..n], before[..n]) == Call(front, Run(START, '\n', front), [])
             && !Run(START, '\n', front).done
    ensures var flags := Run(START, '\n', Concat(lines)).(failed := false);
            ServedAll(FRESH, lines, before) ==
            Call(Concat(lines), flags, if flags.done then [Dicts(Concat(lines))] else [])
  {
    hide *;
    var n := |lines| - 1;
    var front, last := Concat(lines[..n]), lines[n];
    FewerLines(lines);
    ChunksAreWhole(START, lines[..n], before[..n]);
    RunParts(START, '\n', front, last);
    BeforeIsPlain(Run(START, '\n', front), before[n], '\n', last);
    ConcatLast(lines);
    LastServed(lines, before);
  }

  /** An answer without its last line is quiet. */
  lemma FrontQuiet(lead: string, items: seq<Item>, front: string, last: string)
    requires IsAnswer(lead, items) && front + last == AnswerText(lead, items) && |last| >= 2
    ensures Quiet(START, '\n', front) && Run(START, '\n', front + last).done
  {
    var text := AnswerText(lead, items);
    hide AnswerText, IsAnswer, Run;
    FramingExact(lead, items, '\n', |text|);
    assert text[..|text|] == text;
    forall j | 0 <= j <= |front|
      ensures !Run(START, '\n', front[..j]).done
    {
      assert front[..j] == text[..j];
      FramingExact(lead, items, '\n', j);
    }
  }

  /**
    However an answer is cut into lines, it is answered by its last line and by no earlier one,
    once, and with exactly the records it encodes.
   */
  lemma AnsweredOnce(lead: string, items: seq<Item>, lines: seq<string>, before: seq<char>, k: nat)
    requires IsAnswer(lead, items) && Concat(lines) == AnswerText(lead, items)
    requires |before| == |lines| && CutAtLineEnds(lines) && k <= |lines|
    requires forall j | 0 <= j < |lines| :: before[j] != '\\'
    ensures ServedAll(FRESH, lines[..k], before[..k]).replies == if k == |lines| then [Meaning(items)] else []
  {
    hide IsAnswer, AnswerText, Meaning, Dicts, Run, Quiet, Concat, ServedAll;
    SomeLine(lead, items, lines);
    var n := |lines| - 1;
    var front := Concat(lines[..n]);
    ConcatLast(lines);
    FrontQuiet(lead, items, front, lines[n]);
    ParserUndoesEncoder(lead, items);
    if k == |lines| {
      assert lines[..k] == lines && before[..k] == before;
      Collecting(lines[..n], before[..n]);
      RunNotDone(front);
      OneLineMore(lines, before);
    } else {
      ConcatPrefix(lines, k, n);
      var part := Concat(lines[..k]);
      assert front == part + front[|part|..];
      QuietPrefix(START, '\n', part, front[|part|..]);
      Collecting(lines[..k], before[..k]);
    }
  }

  lemma SomeLine(lead: string, items: seq<Item>, lines: seq<string>)
    requires Concat(lines) == AnswerText(lead, items)
    ensures lines != []
  {
  }

  lemma RunNotDone(front: string)
    requires Quiet(START, '\n', front)
    ensures !Run(START, '\n', front).done
  {
    assert front + "" == front;
    QuietPrefix(START, '\n', front, "");
  }

  lemma {:induction false} ConcatPrefix(lines: seq<string>, k: nat, n: nat)
    requires k <= n <= |lines|
    ensures Concat(lines[..k]) <= Concat(lines[..n])
    decreases n - k
  {
    if k < n {
      ConcatPrefix(lines, k, n - 1);
      assert lines[..n][..n - 1] == lines[..n - 1];
    }
  }
}
