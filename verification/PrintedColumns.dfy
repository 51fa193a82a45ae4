/** The whole text the columns make: its lines, what stands where in them, and that nothing is left out or repeated. */
module PrintedColumns {
  import opened Lists
  import opened Splitting
  import opened Columns

  const LINE_FEED: set<char> := {'\n'}

  predicate OneLiners(texts: seq<string>) {
    forall i | 0 <= i < |texts| :: Free(texts[i], LINE_FEED)
  }

  // ---------- lines and their line feeds ----------

  /** Lines, each with its line feed. */
  function Ended(lines: seq<string>): string {
    if lines == [] then "" else lines[0] + ("\n" + Ended(lines[1..]))
  }

  lemma EndedOne(line: string, lines: seq<string>)
    ensures Ended([line] + lines) == line + ("\n" + Ended(lines))
  {
    assert ([line] + lines)[1..] == lines;
  }

  lemma {:induction false} EndedMore(lines: seq<string>, line: string)
    ensures Ended(lines + [line]) == Ended(lines) + line + "\n"
    decreases |lines|
  {
    if lines == [] {
      assert [] + [line] == [line] && [line] + [] == [line];
      EndedOne(line, []);
      assert "" + line + "\n" == line + ("\n" + "");
    } else {
      var first, rest := lines[0], lines[1..];
      assert [first] + rest == lines && [first] + (rest + [line]) == lines + [line];
      hide *;
      EndedOne(first, rest);
      EndedOne(first, rest + [line]);
      EndedMore(rest, line);
      Regroup(first, "\n" + Ended(rest), line);
      Regroup("\n", Ended(rest), line);
      Regroup(first, "\n" + (Ended(rest) + line), "\n");
      Regroup("\n", Ended(rest) + line, "\n");
    }
  }

  /** Splitting at line feeds gives the lines back, and nothing behind the last one. */
  lemma {:induction false} EndedSplits(lines: seq<string>)
    requires forall i | 0 <= i < |lines| :: Free(lines[i], LINE_FEED)
    ensures Split(Ended(lines), LINE_FEED) == lines + [""]
    decreases |lines|
  {
    if lines == [] {
      SplitLast("", LINE_FEED);
    } else {
      var first, rest := lines[0], lines[1..];
      assert [first] + rest == lines && [first] + (rest + [""]) == lines + [""];
      assert '\n' in LINE_FEED && "\n" == ['\n'];
      EndedSplits(rest);
      EndedOne(first, rest);
      hide Split, Ended;
      SplitMore(first, '\n', Ended(rest), LINE_FEED);
    }
  }

  // ---------- the printed text is its lines ----------

  lemma CellIsFree(texts: seq<string>, rows: nat, columns: nat, i: nat)
    requires OneLiners(texts) && rows > 0 && i < |texts|
    ensures Free(Cell(texts, rows, columns, i), LINE_FEED)
  {
    hide ColumnOf, Width;
    assert Free(texts[i], LINE_FEED);
  }

  lemma {:induction false} CellsAreFree(texts: seq<string>, rows: nat, columns: nat, indices: seq<nat>)
    requires OneLiners(texts) && rows > 0 && forall k | 0 <= k < |indices| :: indices[k] < |texts|
    ensures Free(Cells(texts, rows, columns, indices), LINE_FEED)
    decreases |indices|
  {
    if indices != [] {
      CellsAreFree(texts, rows, columns, indices[..|indices| - 1]);
      CellIsFree(texts, rows, columns, indices[|indices| - 1]);
      hide Cell;
    }
  }

  function FirstLines(texts: seq<string>, rows: nat, columns: nat, upTo: nat): (lines: seq<string>)
    requires rows > 0
    ensures |lines| == upTo && forall row | 0 <= row < upTo :: lines[row] == Line(texts, rows, columns, row)
  {
    seq(upTo, row requires 0 <= row < upTo => Line(texts, rows, columns, row))
  }

  lemma FirstLinesMore(texts: seq<string>, rows: nat, columns: nat, upTo: nat)
    requires rows > 0 && upTo > 0
    ensures FirstLines(texts, rows, columns, upTo) ==
            FirstLines(texts, rows, columns, upTo - 1) + [Line(texts, rows, columns, upTo - 1)]
    ensures Lines(texts, rows, columns, upTo) ==
            Lines(texts, rows, columns, upTo - 1) + Line(texts, rows, columns, upTo - 1) + "\n"
  {
    hide Line;
  }

  lemma NoLines(texts: seq<string>, rows: nat, columns: nat)
    requires rows > 0
    ensures FirstLines(texts, rows, columns, 0) == [] && Lines(texts, rows, columns, 0) == Ended([])
  {
  }

  lemma {:induction false} TextIsEnded(texts: seq<string>, rows: nat, columns: nat, upTo: nat)
    requires rows > 0
    ensures Lines(texts, rows, columns, upTo) == Ended(FirstLines(texts, rows, columns, upTo))
    decreases upTo
  {
    hide *;
    if upTo == 0 {
      NoLines(texts, rows, columns);
    } else {
      TextIsEnded(texts, rows, columns, upTo - 1);
      FirstLinesMore(texts, rows, columns, upTo);
      EndedMore(FirstLines(texts, rows, columns, upTo - 1), Line(texts, rows, columns, upTo - 1));
    }
  }

  /** The lines the printed text splits into. */
  lemma TextIsLines(texts: seq<string>, rows: nat, columns: nat, upTo: nat)
    requires OneLiners(texts) && rows > 0
    ensures Split(Lines(texts, rows, columns, upTo), LINE_FEED) == FirstLines(texts, rows, columns, upTo) + [""]
  {
    hide *;
    TextIsEnded(texts, rows, columns, upTo);
    forall row | 0 <= row < upTo
      ensures Free(FirstLines(texts, rows, columns, upTo)[row], LINE_FEED)
    {
      LineIsFree(texts, rows, columns, row);
    }
    EndedSplits(FirstLines(texts, rows, columns, upTo));
  }

  lemma LineIsFree(texts: seq<string>, rows: nat, columns: nat, row: nat)
    requires OneLiners(texts) && rows > 0
    ensures Free(Line(texts, rows, columns, row), LINE_FEED)
  {
    CellsAreFree(texts, rows, columns, RowIndices(|texts|, rows, row, columns));
  }

  // ---------- what stands where ----------

  predicate Stands(text: string, line: string, from: nat) {
    from + |text| <= |line| && line[from..from + |text|] == text
  }

  /** A string stands in the line of its row from the start of its column on. */
  predicate InPlace(texts: seq<string>, rows: nat, lines: seq<string>, i: nat)
    requires rows > 0 && i < |texts|
  {
    i % rows < |lines| && Stands(texts[i], lines[i % rows], Offset(texts, rows, i / rows))
  }

  lemma TextStands(texts: seq<string>, columns: nat, i: nat)
    requires 0 < columns && i < |texts|
    ensures var rows := Rows(|texts|, columns);
            && rows > 0 && i % rows < rows
            && Stands(texts[i], Line(texts, rows, columns, i % rows), Offset(texts, rows, i / rows))
  {
    RowsCover(|texts|, columns);
    TextInPlace(texts, columns, i);
    hide Line, Offset, Rows;
  }

  /**
    What is printed for strings without line feeds: as many lines as there are rows, with each
    string in the line of its row, from the start of its column on.
   */
  lemma PrintedText(texts: seq<string>, columns: nat)
    requires 0 < columns && texts != [] && OneLiners(texts)
    ensures Rows(|texts|, columns) > 0
    ensures var rows := Rows(|texts|, columns);
            var lines := Split(Lines(texts, rows, columns, rows), LINE_FEED);
            && |lines| == rows + 1 && lines[rows] == ""
            && forall i | 0 <= i < |texts| :: InPlace(texts, rows, lines, i)
  {
    hide *;
    RowsCover(|texts|, columns);
    var rows := Rows(|texts|, columns);
    TextIsLines(texts, rows, columns, rows);
    forall i | 0 <= i < |texts|
      ensures InPlace(texts, rows, Split(Lines(texts, rows, columns, rows), LINE_FEED), i)
    {
      TextPrinted(texts, columns, i);
    }
  }

  lemma TextPrinted(texts: seq<string>, columns: nat, i: nat)
    requires 0 < columns && i < |texts| && OneLiners(texts)
    ensures Rows(|texts|, columns) > 0
    ensures var rows := Rows(|texts|, columns);
            InPlace(texts, rows, Split(Lines(texts, rows, columns, rows), LINE_FEED), i)
  {
    TextStands(texts, columns, i);
    var rows := Rows(|texts|, columns);
    TextIsLines(texts, rows, columns, rows);
    hide Split, Lines, Line, Offset, Stands, Rows;
    LineOf(FirstLines(texts, rows, columns, rows), "", i % rows);
  }

  lemma LineOf(lines: seq<string>, last: string, row: nat)
    requires row < |lines|
    ensures (lines + [last])[row] == lines[row]
  {
  }

  // ---------- nothing is left out or repeated ----------

  lemma {:induction false} CellsOfTwo(texts: seq<string>, rows: nat, columns: nat, a: seq<nat>, b: seq<nat>)
    requires rows > 0 && forall k | 0 <= k < |a| :: a[k] < |texts|
    requires forall k | 0 <= k < |b| :: b[k] < |texts|
    ensures Cells(texts, rows, columns, a + b) == Cells(texts, rows, columns, a) + Cells(texts, rows, columns, b)
    decreases |b|
  {
    if b == [] {
      assert a + b == a;
    } else {
      var front, last := b[..|b| - 1], b[|b| - 1];
      assert (a + b)[..|a + b| - 1] == a + front && (a + b)[|a + b| - 1] == last;
      CellsOfTwo(texts, rows, columns, a, front);
      hide Cell;
      Regroup(Cells(texts, rows, columns, a), Cells(texts, rows, columns, front), Cell(texts, rows, columns, last));
    }
  }

  lemma {:induction false} IndicesInRange(n: nat, rows: nat, columns: nat, upTo: nat)
    ensures forall k | 0 <= k < |AllIndices(n, rows, columns, upTo)| :: AllIndices(n, rows, columns, upTo)[k] < n
    decreases upTo
  {
    if upTo > 0 {
      IndicesInRange(n, rows, columns, upTo - 1);
      hide RowIndices;
    }
  }

  lemma ConcatOne(texts: seq<string>, text: string)
    ensures Concat(texts + [text]) == Concat(texts) + text
  {
    assert (texts + [text])[..|texts|] == texts;
  }

  lemma NoIndicesYet(texts: seq<string>, rows: nat, columns: nat)
    requires rows > 0
    ensures AllIndices(|texts|, rows, columns, 0) == [] && Cells(texts, rows, columns, []) == "" && Concat([]) == ""
  {
  }

  lemma LastRow(texts: seq<string>, rows: nat, columns: nat, upTo: nat)
    requires rows > 0 && upTo > 0
    ensures AllIndices(|texts|, rows, columns, upTo) ==
            AllIndices(|texts|, rows, columns, upTo - 1) + RowIndices(|texts|, rows, upTo - 1, columns)
    ensures Line(texts, rows, columns, upTo - 1) ==
            Cells(texts, rows, columns, RowIndices(|texts|, rows, upTo - 1, columns))
  {
    hide Cells, RowIndices;
  }

  /** The lines together are the cells of all strings in the order of `AllIndices`. */
  lemma {:induction false} LinesAreCells(texts: seq<string>, rows: nat, columns: nat, upTo: nat)
    requires rows > 0
    requires forall k | 0 <= k < |AllIndices(|texts|, rows, columns, upTo)| :: AllIndices(|texts|, rows, columns, upTo)[k] < |texts|
    ensures Concat(FirstLines(texts, rows, columns, upTo)) ==
            Cells(texts, rows, columns, AllIndices(|texts|, rows, columns, upTo))
    decreases upTo
  {
    hide *;
    if upTo == 0 {
      NoIndicesYet(texts, rows, columns);
      NoLines(texts, rows, columns);
    } else {
      var before, row := AllIndices(|texts|, rows, columns, upTo - 1), RowIndices(|texts|, rows, upTo - 1, columns);
      LastRow(texts, rows, columns, upTo);
      IndicesInRange(|texts|, rows, columns, upTo - 1);
      LinesAreCells(texts, rows, columns, upTo - 1);
      FirstLinesMore(texts, rows, columns, upTo);
      ConcatOne(FirstLines(texts, rows, columns, upTo - 1), Line(texts, rows, columns, upTo - 1));
      CellsOfTwo(texts, rows, columns, before, row);
    }
  }

  predicate Blank(s: string) {
    forall i | 0 <= i < |s| :: s[i] == ' '
  }

  /** Around the string of a cell there are spaces only. */
  lemma CellIsPadded(texts: seq<string>, rows: nat, columns: nat, i: nat) returns (front: string, back: string)
    requires rows > 0 && i < |texts|
    ensures Cell(texts, rows, columns, i) == front + texts[i] + back && Blank(front) && Blank(back)
  {
    var column := i / rows;
    var width := Width(texts, rows, column);
    var pad := if |texts[i]| < width then Spaces(width - |texts[i]|) else "";
    front := if column == 0 then "  " else "";
    back := pad + if column < columns - 1 then "  " else "";
    hide Width;
    assert Cell(texts, rows, columns, i) == front + (texts[i] + pad) + (if column < columns - 1 then "  " else "");
  }

  /** How often a number occurs in a list. */
  function Occurrences(indices: seq<nat>, i: nat): nat {
    multiset(indices)[i]
  }

  /**
    Every string is printed exactly once: without its line feeds, the printed text is the cells of
    the strings with these indices, and each index occurs once among them.
   */
  lemma PrintedOnce(texts: seq<string>, columns: nat) returns (indices: seq<nat>)
    requires 0 < columns && texts != [] && OneLiners(texts)
    ensures Rows(|texts|, columns) > 0 && forall k | 0 <= k < |indices| :: indices[k] < |texts|
    ensures forall i: nat :: Occurrences(indices, i) == if i < |texts| then 1 else 0
    ensures var rows := Rows(|texts|, columns);
            Concat(Split(Lines(texts, rows, columns, rows), LINE_FEED)) == Cells(texts, rows, columns, indices)
  {
    RowsCover(|texts|, columns);
    var rows := Rows(|texts|, columns);
    indices := AllIndices(|texts|, rows, columns, rows);
    forall i: nat
      ensures Occurrences(indices, i) == if i < |texts| then 1 else 0
    {
      ShownOnce(|texts|, columns, i);
    }
    hide *;
    IndicesInRange(|texts|, rows, columns, rows);
    TextIsLines(texts, rows, columns, rows);
    ConcatOne(FirstLines(texts, rows, columns, rows), "");
    LinesAreCells(texts, rows, columns, rows);
    assert Concat(FirstLines(texts, rows, columns, rows)) + "" == Concat(FirstLines(texts, rows, columns, rows));
  }
}
