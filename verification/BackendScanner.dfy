/** The scanner that decides, chunk by chunk, when a backend3 answer is complete. */
module BackendScanner {
  import opened Lists
  import opened Characters
  import opened BackendAnswer

  /** The validation flags of a call; `failed` stands for the early return on a bracket error. */
  datatype Scan = Scan(done: bool, inner: bool, outer: bool, doubleQuotes: bool, quotes: bool, failed: bool)

  const START := Scan(false, false, false, false, false, false)

  /** One character, with the one before it. */
  function Step(s: Scan, prev: char, c: char): Scan {
    if s.failed || (s.doubleQuotes && c != '"') || (s.quotes && c != '\'') then s
    else if c == '"' then if prev != '\\' then s.(doubleQuotes := !s.doubleQuotes) else s
    else if c == '\'' then if prev != '\\' then s.(quotes := !s.quotes) else s
    else if c == '(' then
      if !s.outer then s.(outer := true)
      else if !s.inner then s.(inner := true)
      else s.(done := true, failed := true)
    else if c == ')' then
      if s.inner then s.(inner := false)
      else if s.outer then s.(done := true)
      else s.(done := true, failed := true)
    else s
  }

  function Last(prev: char, text: string): char {
    if text == "" then prev else text[|text| - 1]
  }

  function Run(s: Scan, prev: char, text: string): Scan {
    if text == "" then s
    else Step(Run(s, prev, text[..|text| - 1]), Last(prev, text[..|text| - 1]), text[|text| - 1])
  }

  lemma {:induction false} RunParts(s: Scan, prev: char, a: string, b: string)
    ensures Run(s, prev, a + b) == Run(Run(s, prev, a), Last(prev, a), b)
    decreases |b|
  {
    if b == "" {
      assert a + b == a;
    } else {
      var front := b[..|b| - 1];
      assert (a + b)[..|a + b| - 1] == a + front;
      RunParts(s, prev, a, front);
    }
  }

  /** The character in front of a chunk matters only as far as it is a backslash. */
  lemma {:induction false} BeforeIsPlain(s: Scan, a: char, b: char, text: string)
    requires a != '\\' && b != '\\'
    ensures Run(s, a, text) == Run(s, b, text)
    decreases |text|
  {
    if text != "" {
      BeforeIsPlain(s, a, b, text[..|text| - 1]);
    }
  }

  /** A quote that opens or closes something, unless it is escaped. */
  predicate Acts(s: Scan, c: char) {
    !s.failed && ((c == '"' && !s.quotes) || (c == '\'' && !s.doubleQuotes))
  }

  /** How deep in brackets a scan is: the inner ones count only inside of the outer. */
  function Depth(s: Scan): nat {
    (if s.outer then 1 else 0) + (if s.inner then 1 else 0)
  }

  /** Outside of quotes brackets count up and down, between none and two; leaving the last one is the end of the answer. */
  lemma BracketStep(s: Scan, prev: char, c: char)
    requires !s.failed && !s.doubleQuotes && !s.quotes && (s.inner ==> s.outer) && c != '"' && c != '\''
    ensures var t := Step(s, prev, c);
            && (t.inner ==> t.outer) && SameQuotes(s, t)
            && Depth(t) == (if c == '(' && Depth(s) < 2 then Depth(s) + 1 else if c == ')' && Depth(s) == 2 then 1 else Depth(s))
            && (t.done <==> s.done || (c == '(' && Depth(s) == 2) || (c == ')' && Depth(s) < 2))
            && (t.failed <==> (c == '(' && Depth(s) == 2) || (c == ')' && Depth(s) == 0))
  {
  }

  /** Inside of quotes only the quote that closes them counts, and that only without a backslash before it. */
  lemma QuotedStep(s: Scan, prev: char, c: char)
    requires s.doubleQuotes || s.quotes
    ensures Step(s, prev, c) != s ==> prev != '\\' && c == if s.doubleQuotes then '"' else '\''
  {
  }

  /** A scan fails outside of quotes only: at a third opening bracket, or a closing one too many. */
  predicate FailsOutside(s: Scan) {
    s.failed ==> s.done && !s.doubleQuotes && !s.quotes && s.inner == s.outer
  }

  predicate SameQuotes(a: Scan, b: Scan) {
    a.doubleQuotes == b.doubleQuotes && a.quotes == b.quotes
  }

  /** Two scans that disagree about quotes go on to disagree, until one of them fails. */
  lemma {:induction false} QuotesApart(a: Scan, b: Scan, prev: char, text: string)
    requires !a.failed && !b.failed && !SameQuotes(a, b)
    ensures var x, y := Run(a, prev, text), Run(b, prev, text);
            FailsOutside(x) && FailsOutside(y) && (!x.failed && !y.failed ==> !SameQuotes(x, y))
    decreases |text|
  {
    if text != "" {
      var n := |text| - 1;
      var front := text[..n];
      QuotesApart(a, b, prev, front);
      FailureStep(Run(a, prev, front), Last(prev, front), text[n]);
      FailureStep(Run(b, prev, front), Last(prev, front), text[n]);
      StepApart(Run(a, prev, front), Run(b, prev, front), Last(prev, front), text[n]);
      hide Step, FailsOutside, SameQuotes;
    }
  }

  lemma FailureStep(s: Scan, prev: char, c: char)
    requires FailsOutside(s)
    ensures FailsOutside(Step(s, prev, c)) && (s.failed ==> Step(s, prev, c) == s)
  {
  }

  lemma StepApart(a: Scan, b: Scan, prev: char, c: char)
    requires !a.failed && !b.failed ==> !SameQuotes(a, b)
    ensures !Step(a, prev, c).failed && !Step(b, prev, c).failed ==> !SameQuotes(Step(a, prev, c), Step(b, prev, c))
  {
    QuotesStep(a, prev, c);
    QuotesStep(b, prev, c);
    hide Step;
  }

  /** What a step does to the quotes: a quote that acts turns its flag over. */
  lemma QuotesStep(s: Scan, prev: char, c: char)
    ensures var t := Step(s, prev, c);
            && t.doubleQuotes == (s.doubleQuotes != (Acts(s, c) && prev != '\\' && c == '"'))
            && t.quotes == (s.quotes != (Acts(s, c) && prev != '\\' && c == '\''))
            && (s.failed ==> t.failed)
  {
  }

  /**
    Exactly when a backslash in front of a buffer makes no difference to the flags after it: when
    the buffer does not start with a quote that the scan would act on, or when both scans run into
    the same bracket error.
   */
  lemma BeforeMatters(s: Scan, text: string)
    requires text != ""
    ensures var x, y := Run(s, '\\', text), Run(s, '\n', text);
            x == y <==> !Acts(s, text[0]) || (x.failed && y.failed && x.outer == y.outer)
  {
    var c, rest := text[0], text[1..];
    assert text == [c] + rest && [c][..0] == "";
    RunParts(s, '\\', [c], rest);
    RunParts(s, '\n', [c], rest);
    var a, b := Step(s, '\\', c), Step(s, '\n', c);
    assert Run(s, '\\', [c]) == a && Run(s, '\n', [c]) == b;
    if Acts(s, c) {
      hide Run;
      QuotesApart(a, b, c, rest);
    }
  }

  // ---------- answers are framed exactly ----------

  /** Nothing up to the end of `text` sets the done flag. */
  ghost predicate Quiet(s: Scan, prev: char, text: string) {
    forall j | 0 <= j <= |text| :: !Run(s, prev, text[..j]).done
  }

  lemma QuietParts(s: Scan, prev: char, a: string, b: string)
    requires Quiet(s, prev, a) && Quiet(Run(s, prev, a), Last(prev, a), b)
    ensures Quiet(s, prev, a + b)
  {
    forall j | 0 <= j <= |a + b|
      ensures !Run(s, prev, (a + b)[..j]).done
    {
      if j <= |a| {
        assert (a + b)[..j] == a[..j];
      } else {
        assert (a + b)[..j] == a + b[..j - |a|];
        RunParts(s, prev, a, b[..j - |a|]);
      }
    }
  }

  /** `text` leaves the flags as they are and the done flag alone. */
  ghost predicate Neutral(s: Scan, prev: char, text: string) {
    Run(s, prev, text) == s && Quiet(s, prev, text)
  }

  lemma NeutralParts(s: Scan, prev: char, a: string, b: string)
    requires Neutral(s, prev, a) && Neutral(s, Last(prev, a), b)
    ensures Neutral(s, prev, a + b)
  {
    RunParts(s, prev, a, b);
    QuietParts(s, prev, a, b);
  }

  /** The character in front of position `i`. */
  function Before(prev: char, text: string, i: nat): char
    requires i <= |text|
  {
    if i == 0 then prev else text[i - 1]
  }

  /** Text all of whose steps are without effect. */
  ghost predicate Idle(s: Scan, prev: char, text: string) {
    forall i | 0 <= i < |text| :: Step(s, Before(prev, text, i), text[i]) == s
  }

  lemma {:induction false} IdleText(s: Scan, prev: char, text: string)
    requires !s.done && Idle(s, prev, text)
    ensures Neutral(s, prev, text)
    decreases |text|
  {
    if text != "" {
      var n := |text| - 1;
      var front := text[..n];
      forall i | 0 <= i < n
        ensures Step(s, Before(prev, front, i), front[i]) == s
      {
        assert Before(prev, front, i) == Before(prev, text, i);
      }
      IdleText(s, prev, front);
      assert Last(prev, front) == Before(prev, text, n);
      forall j | 0 <= j <= |text|
        ensures !Run(s, prev, text[..j]).done
      {
        assert text[..j] == if j <= n then front[..j] else text;
      }
    }
  }

  ghost predicate Open(s: Scan) {
    s.outer && !s.done && !s.failed && !s.doubleQuotes && !s.quotes
  }

  lemma OneChar(s: Scan, prev: char, c: char)
    ensures Run(s, prev, [c]) == Step(s, prev, c)
    ensures !s.done && !Step(s, prev, c).done ==> Quiet(s, prev, [c])
  {
    assert [c][..0] == "" && [c][..1] == [c];
  }

  /** Text without quotes and brackets says nothing outside of quotes. */
  ghost predicate Plain(text: string) {
    forall i | 0 <= i < |text| :: IsWordChar(text[i]) || IsSpace(text[i])
  }

  lemma PlainNeutral(s: Scan, prev: char, text: string)
    requires Open(s) && Plain(text)
    ensures Neutral(s, prev, text)
  {
    IdleText(s, prev, text);
  }

  /** A value in its quotes. */
  lemma QuotedNeutral(s: Scan, prev: char, v: string)
    requires Open(s) && IsValue(v) && prev != '\\'
    ensures Neutral(s, prev, ['"'] + (v + ['"']))
  {
    var q := s.(doubleQuotes := true);
    OneChar(s, prev, '"');
    IdleText(q, '"', v);
    OneChar(q, Last('"', v), '"');
    RunParts(q, '"', v, ['"']);
    QuietParts(q, '"', v, ['"']);
    RunParts(s, prev, ['"'], v + ['"']);
    QuietParts(s, prev, ['"'], v + ['"']);
  }

  lemma PairNeutral(s: Scan, prev: char, w: Written)
    requires Open(s) && IsWritten(w)
    ensures Neutral(s, prev, PairText(w))
  {
    hide *;
    var head, quoted := w.pair.key + w.gap, ['"'] + (w.pair.value + ['"']);
    PairIsPlain(prev, w);
    PlainNeutral(s, prev, head);
    QuotedNeutral(s, w.gap[|w.gap| - 1], w.pair.value);
    NeutralParts(s, prev, head, quoted);
    PlainNeutral(s, '"', w.after);
    NeutralParts(s, prev, head + quoted, w.after);
    PairTextParts(w);
  }

  lemma PairTextParts(w: Written)
    ensures PairText(w) == ((w.pair.key + w.gap) + (['"'] + (w.pair.value + ['"']))) + w.after
  {
    var key, gap, value, after, quoted := w.pair.key, w.gap, w.pair.value, w.after, ['"'] + (w.pair.value + ['"']);
    Regroup(key + gap, quoted, after);
    Regroup(key, gap, quoted + after);
    Regroup(['"'], value + ['"'], after);
    Regroup(value, ['"'], after);
  }

  /** Around the value of a pair there is only plain text, and no backslash before its quotes. */
  lemma PairIsPlain(prev: char, w: Written)
    requires IsWritten(w)
    ensures Plain(w.pair.key + w.gap) && Plain(w.after) && IsValue(w.pair.value)
    ensures w.gap != "" && w.gap[|w.gap| - 1] != '\\'
    ensures Last(prev, w.pair.key + w.gap) == w.gap[|w.gap| - 1]
    ensures Last(prev, (w.pair.key + w.gap) + (['"'] + (w.pair.value + ['"']))) == '"'
  {
    assert IsSpace(w.gap[|w.gap| - 1]);
  }

  lemma {:induction false} PairsNeutral(s: Scan, prev: char, pairs: seq<Written>)
    requires Open(s) && AllWritten(pairs)
    ensures Neutral(s, prev, PairsText(pairs))
    decreases |pairs|
  {
    hide Neutral, Open, PairText;
    if pairs == [] {
      NothingNeutral(s, prev);
    } else {
      var first := PairText(pairs[0]);
      PairNeutral(s, prev, pairs[0]);
      PairsNeutral(s, Last(prev, first), pairs[1..]);
      NeutralParts(s, prev, first, PairsText(pairs[1..]));
    }
  }

  lemma NothingNeutral(s: Scan, prev: char)
    requires Open(s)
    ensures Neutral(s, prev, "")
  {
  }

  lemma SpacesNeutral(s: Scan, prev: char, spaces: string)
    requires Open(s) && IsSpaces(spaces)
    ensures Neutral(s, prev, spaces)
  {
    PlainNeutral(s, prev, spaces);
  }

  lemma GroupNeutral(s: Scan, prev: char, lead: string, pairs: seq<Written>)
    requires Open(s) && !s.inner && AllWritten(pairs) && IsSpaces(lead)
    ensures Neutral(s, prev, ['('] + ((lead + PairsText(pairs)) + [')']))
  {
    var t, body := s.(inner := true), lead + PairsText(pairs);
    OneChar(s, prev, '(');
    SpacesNeutral(t, '(', lead);
    PairsNeutral(t, Last('(', lead), pairs);
    hide PairsText, AllWritten, IsSpaces;
    NeutralParts(t, '(', lead, PairsText(pairs));
    OneChar(t, Last('(', body), ')');
    RunParts(t, '(', body, [')']);
    QuietParts(t, '(', body, [')']);
    RunParts(s, prev, ['('], body + [')']);
    QuietParts(s, prev, ['('], body + [')']);
  }

  lemma ItemNeutral(s: Scan, prev: char, item: Item)
    requires Open(s) && !s.inner && IsItem(item)
    ensures Neutral(s, prev, ItemText(item))
  {
    hide Neutral, Open, PairText, PairsText, AllWritten, IsSpaces, IsWritten;
    match item
    case Lone(written) => PairNeutral(s, prev, written);
    case Group(lead, pairs, after) =>
      var group := ['('] + ((lead + PairsText(pairs)) + [')']);
      GroupNeutral(s, prev, lead, pairs);
      SpacesNeutral(s, Last(prev, group), after);
      NeutralParts(s, prev, group, after);
      GroupText(lead, PairsText(pairs), after);
  }

  lemma GroupText(lead: string, body: string, after: string)
    ensures ['('] + (lead + (body + ([')'] + after))) == (['('] + ((lead + body) + [')'])) + after
  {
    Regroup(['('], (lead + body) + [')'], after);
    Regroup(lead + body, [')'], after);
    Regroup(lead, body, [')'] + after);
  }

  lemma {:induction false} ItemsNeutral(s: Scan, prev: char, items: seq<Item>)
    requires Open(s) && !s.inner && AllItems(items)
    ensures Neutral(s, prev, ItemsText(items))
    decreases |items|
  {
    hide Neutral, Open, ItemText, IsItem;
    if items == [] {
      NothingNeutral(s, prev);
    } else {
      var first := ItemText(items[0]);
      ItemNeutral(s, prev, items[0]);
      ItemsNeutral(s, Last(prev, first), items[1..]);
      NeutralParts(s, prev, first, ItemsText(items[1..]));
    }
  }

  lemma FrontOpens(lead: string, items: seq<Item>, prev: char)
    requires IsAnswer(lead, items)
    ensures var front := ['('] + (lead + ItemsText(items));
            Run(START, prev, front) == START.(outer := true) && Quiet(START, prev, front)
  {
    var s := START.(outer := true);
    var body := lead + ItemsText(items);
    OneChar(START, prev, '(');
    SpacesNeutral(s, '(', lead);
    ItemsNeutral(s, Last('(', lead), items);
    hide ItemsText, AllItems, IsSpaces;
    NeutralParts(s, '(', lead, ItemsText(items));
    RunParts(START, prev, ['('], body);
    QuietParts(START, prev, ['('], body);
  }

  lemma EndCloses(front: string, prev: char)
    requires Run(START, prev, front) == START.(outer := true)
    ensures Run(START, prev, front + ")") == START.(outer := true, done := true)
    ensures Run(START, prev, front + ")\n") == START.(outer := true, done := true)
  {
    OneChar(START.(outer := true), Last(prev, front), ')');
    RunParts(START, prev, front, ")");
    OneChar(START.(outer := true, done := true), ')', '\n');
    assert front + ")\n" == (front + ")") + "\n";
    RunParts(START, prev, front + ")", "\n");
  }

  lemma AnswerTextParts(lead: string, items: seq<Item>)
    ensures AnswerText(lead, items) == (['('] + (lead + ItemsText(items))) + ")\n"
  {
    Regroup(['('], lead + ItemsText(items), ")\n");
    Regroup(lead, ItemsText(items), ")\n");
  }

  /** The done flag is set by the closing outer bracket of an answer, and by nothing before it. */
  lemma FramingExact(lead: string, items: seq<Item>, prev: char, j: nat)
    requires IsAnswer(lead, items) && j <= |AnswerText(lead, items)|
    ensures Run(START, prev, AnswerText(lead, items)[..j]).done <==> j >= |AnswerText(lead, items)| - 1
    ensures !Run(START, prev, AnswerText(lead, items)).failed
  {
    hide Run, AnswerText, ItemsText, IsAnswer;
    var front, whole := ['('] + (lead + ItemsText(items)), AnswerText(lead, items);
    FrontOpens(lead, items, prev);
    EndCloses(front, prev);
    AnswerTextParts(lead, items);
    if j <= |front| {
      assert whole[..j] == front[..j];
    } else if j == |front| + 1 {
      assert whole[..j] == front + ")";
    } else {
      assert whole[..j] == whole;
    }
  }

  // ---------- chunks ----------

  /** Scanning chunk by chunk, each with whatever byte lies in front of its buffer. */
  function RunChunks(s: Scan, chunks: seq<string>, before: seq<char>): Scan
    requires |before| == |chunks|
  {
    if chunks == [] then s
    else
      var n := |chunks| - 1;
      Run(RunChunks(s, chunks[..n], before[..n]), before[n], chunks[n])
  }

  /** Chunks as the channel cuts them: none is empty and each ends behind a bracket and a line end. */
  ghost predicate CutAtLineEnds(chunks: seq<string>) {
    forall i | 0 <= i < |chunks| ::
      |chunks[i]| >= 2 && chunks[i][|chunks[i]| - 2] == ')' && chunks[i][|chunks[i]| - 1] == '\n'
  }

  lemma LastChunk(s: Scan, chunks: seq<string>, before: seq<char>)
    requires |before| == |chunks| && chunks != []
    ensures var n := |chunks| - 1;
            RunChunks(s, chunks, before) == Run(RunChunks(s, chunks[..n], before[..n]), before[n], chunks[n])
  {
    hide Run;
  }

  /** With no stray backslash in front of a buffer, cutting makes no difference. */
  lemma {:induction false} ChunksAreWhole(s: Scan, chunks: seq<string>, before: seq<char>)
    requires |before| == |chunks| && CutAtLineEnds(chunks)
    requires forall i | 0 <= i < |before| :: before[i] != '\\'
    ensures RunChunks(s, chunks, before) == Run(s, '\n', Concat(chunks))
    ensures Last('\n', Concat(chunks)) == '\n'
    decreases |chunks|
  {
    if chunks != [] {
      var n := |chunks| - 1;
      LastChunk(s, chunks, before);
      ConcatLast(chunks);
      hide Run, RunChunks, Concat;
      ChunksAreWhole(s, chunks[..n], before[..n]);
      RunParts(s, '\n', Concat(chunks[..n]), chunks[n]);
      BeforeIsPlain(RunChunks(s, chunks[..n], before[..n]), before[n], '\n', chunks[n]);
    }
  }
}
