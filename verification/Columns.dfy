/** Arranging strings in columns of a terminal: which number of columns, and what is printed where. */
module Columns {
  import opened Options

  // ---------- rows and columns ----------

  function Rows(n: nat, columns: nat): nat
    requires columns > 0
  {
    (n + columns - 1) / columns
  }

  function ColumnOf(i: nat, rows: nat): nat
    requires rows > 0
  {
    i / rows
  }

  function RowOf(i: nat, rows: nat): nat
    requires rows > 0
  {
    i % rows
  }

  function Index(rows: nat, row: nat, column: nat): nat {
    column * rows + row
  }

  lemma MulGrows(a: nat, b: nat, c: nat)
    ensures a <= b ==> a * c <= b * c
    ensures (a + 1) * c == a * c + c
  {
    if a <= b {
      assert (b - a) * c >= 0;
    }
  }

  lemma RowsCover(n: nat, columns: nat)
    requires columns > 0 && n > 0
    ensures var rows := Rows(n, columns); rows > 0 && n <= rows * columns < n + columns
  {
    var rows := Rows(n, columns);
    assert n + columns - 1 == rows * columns + (n + columns - 1) % columns;
    MulGrows(rows, 0, columns);
  }

  lemma OnePlace(q: nat, r: nat, p: nat, s: nat, rows: nat)
    requires r < rows && s < rows && q * rows + r == p * rows + s
    ensures q == p && r == s
  {
    MulGrows(q + 1, p, rows);
    MulGrows(p + 1, q, rows);
    MulGrows(q, p, rows);
    MulGrows(p, q, rows);
  }

  lemma PlaceOfIndex(rows: nat, row: nat, column: nat)
    requires row < rows
    ensures ColumnOf(Index(rows, row, column), rows) == column && RowOf(Index(rows, row, column), rows) == row
    ensures Index(rows, row, column + 1) == Index(rows, row, column) + rows
  {
    var i := Index(rows, row, column);
    assert i == i / rows * rows + i % rows;
    OnePlace(column, row, i / rows, i % rows, rows);
    MulGrows(column, column, rows);
  }

  lemma IndexOfPlace(i: nat, rows: nat)
    requires rows > 0
    ensures i == Index(rows, RowOf(i, rows), ColumnOf(i, rows)) && RowOf(i, rows) < rows
  {
  }

  lemma IsAt(i: nat, rows: nat, row: nat, column: nat)
    requires row < rows
    ensures i == Index(rows, row, column) <==> RowOf(i, rows) == row && ColumnOf(i, rows) == column
  {
    PlaceOfIndex(rows, row, column);
    IndexOfPlace(i, rows);
    hide Index, RowOf, ColumnOf;
  }

  /** Every string has a column of the table. */
  lemma ColumnInBounds(i: nat, n: nat, columns: nat)
    requires columns > 0 && i < n
    ensures Rows(n, columns) > 0 && ColumnOf(i, Rows(n, columns)) < columns
  {
    RowsCover(n, columns);
    var rows := Rows(n, columns);
    assert i == i / rows * rows + i % rows;
    MulGrows(columns, i / rows, rows);
  }

  /** More columns never need more rows. */
  lemma RowsShrink(n: nat, c: nat, d: nat)
    requires 0 < c <= d && n > 0
    ensures Rows(n, d) <= Rows(n, c)
  {
    RowsCover(n, c);
    RowsCover(n, d);
    var a, b := Rows(n, c), Rows(n, d);
    hide Rows;
    ProductsOrdered(a, b, c, d);
  }

  lemma ProductsOrdered(a: nat, b: nat, c: nat, d: nat)
    requires c <= d && b * d < a * c + d
    ensures b <= a
  {
    MulGrows(c, d, a);
    assert a * c <= a * d by { assert a * c == c * a && a * d == d * a; }
    MulGrows(a + 1, b, d);
    MulGrows(a, a, d);
  }

  // ---------- widths ----------

  /** The length of the longest of the first `i` strings that are in a column. */
  function WidthUpTo(texts: seq<string>, i: nat, rows: nat, column: nat): nat
    requires i <= |texts| && rows > 0
  {
    if i == 0 then 0
    else
      var w := WidthUpTo(texts, i - 1, rows, column);
      if ColumnOf(i - 1, rows) == column && |texts[i - 1]| > w then |texts[i - 1]| else w
  }

  function Width(texts: seq<string>, rows: nat, column: nat): nat
    requires rows > 0
  {
    WidthUpTo(texts, |texts|, rows, column)
  }

  lemma {:induction false} WidthUpToIsMaximum(texts: seq<string>, i: nat, rows: nat, column: nat)
    requires i <= |texts| && rows > 0
    ensures forall k | 0 <= k < i && ColumnOf(k, rows) == column :: |texts[k]| <= WidthUpTo(texts, i, rows, column)
    ensures WidthUpTo(texts, i, rows, column) > 0 ==>
              exists k :: 0 <= k < i && ColumnOf(k, rows) == column && |texts[k]| == WidthUpTo(texts, i, rows, column)
  {
    if i > 0 {
      WidthUpToIsMaximum(texts, i - 1, rows, column);
    }
  }

  function WidthSum(texts: seq<string>, rows: nat, columns: nat): nat
    requires rows > 0
  {
    if columns == 0 then 0 else WidthSum(texts, rows, columns - 1) + Width(texts, rows, columns - 1)
  }

  /** The width of a table: its columns and two spaces between each two. */
  function TotalWidth(texts: seq<string>, columns: nat): nat
    requires columns > 0 && texts != []
  {
    RowsCover(|texts|, columns);
    WidthSum(texts, Rows(|texts|, columns), columns) + 2 * (columns - 1)
  }

  method ColumnWidths(texts: seq<string>, columns: nat) returns (rows: nat, widths: array<nat>)
    requires columns > 0 && texts != []
    ensures rows == Rows(|texts|, columns) && rows > 0
    ensures fresh(widths) && widths.Length == columns
    ensures forall c | 0 <= c < columns :: widths[c] == Width(texts, rows, c)
  {
    rows := (|texts| + columns - 1) / columns;
    RowsCover(|texts|, columns);
    widths := new nat[columns](_ => 0);
    for i := 0 to |texts|
      invariant forall c | 0 <= c < columns :: widths[c] == WidthUpTo(texts, i, rows, c)
    {
      var column := i / rows;
      ColumnInBounds(i, |texts|, columns);
      if |texts[i]| > widths[column] {
        widths[column] := |texts[i]|;
      }
    }
  }

  // ---------- the search ----------

  predicate Feasible(texts: seq<string>, columns: nat, width: nat)
    requires columns > 0 && texts != []
  {
    TotalWidth(texts, columns) <= width
  }

  method MeasureTotal(texts: seq<string>, columns: nat) returns (total: nat)
    requires columns > 0 && texts != []
    ensures total == TotalWidth(texts, columns)
  {
    var rows, widths := ColumnWidths(texts, columns);
    total := 0;
    for i := 0 to columns
      invariant total == WidthSum(texts, rows, i) + 2 * (if i < columns then i else columns - 1)
    {
      total := total + widths[i] + if i < columns - 1 then 2 else 0;
    }
  }

  /** The most columns that fit, or one if none do; so no number of columns that fits needs fewer rows. */
  method ChooseColumns(texts: seq<string>, width: nat) returns (columns: nat)
    requires texts != []
    ensures 1 <= columns <= |texts|
    ensures forall c | 1 <= c <= |texts| && Feasible(texts, c, width) ::
              Feasible(texts, columns, width) && c <= columns && Rows(|texts|, columns) <= Rows(|texts|, c)
    ensures !Feasible(texts, columns, width) ==> columns == 1
  {
    columns := 1;
    var column := |texts|;
    while column > 0
      invariant 0 <= column <= |texts| && columns == 1
      invariant forall c: nat | 0 <= column < c <= |texts| :: !Feasible(texts, c, width)
    {
      var total := MeasureTotal(texts, column);
      if total <= width {
        columns := column;
        break;
      }
      column := column - 1;
    }
    forall c | 1 <= c <= |texts| && Feasible(texts, c, width)
      ensures Rows(|texts|, columns) <= Rows(|texts|, c)
    {
      RowsShrink(|texts|, c, columns);
    }
  }

  // ---------- the output ----------

  function Spaces(n: nat): (s: string)
    ensures |s| == n
  {
    seq(n, _ => ' ')
  }

  function Padded(text: string, width: nat): string {
    text + if |text| < width then Spaces(width - |text|) else ""
  }

  /** One string with its indent or the spaces after it. */
  function Cell(texts: seq<string>, rows: nat, columns: nat, i: nat): string
    requires rows > 0 && i < |texts|
  {
    (if ColumnOf(i, rows) == 0 then "  " else "") + Padded(texts[i], Width(texts, rows, ColumnOf(i, rows))) +
    (if ColumnOf(i, rows) < columns - 1 then "  " else "")
  }

  /** Which strings a row holds in its first columns, from left to right. */
  function RowIndices(n: nat, rows: nat, row: nat, columns: nat): (indices: seq<nat>)
    ensures forall k | 0 <= k < |indices| :: indices[k] < n
  {
    if columns == 0 then []
    else
      RowIndices(n, rows, row, columns - 1) +
      if Index(rows, row, columns - 1) < n then [Index(rows, row, columns - 1)] else []
  }

  function Cells(texts: seq<string>, rows: nat, columns: nat, indices: seq<nat>): string
    requires rows > 0 && forall k | 0 <= k < |indices| :: indices[k] < |texts|
  {
    if indices == [] then ""
    else
      Cells(texts, rows, columns, indices[..|indices| - 1]) + Cell(texts, rows, columns, indices[|indices| - 1])
  }

  function Line(texts: seq<string>, rows: nat, columns: nat, row: nat): string
    requires rows > 0
  {
    Cells(texts, rows, columns, RowIndices(|texts|, rows, row, columns))
  }

  function Lines(texts: seq<string>, rows: nat, columns: nat, upTo: nat): string
    requires rows > 0
  {
    if upTo == 0 then "" else Lines(texts, rows, columns, upTo - 1) + Line(texts, rows, columns, upTo - 1) + "\n"
  }

  lemma OneMoreCell(texts: seq<string>, rows: nat, columns: nat, row: nat, column: nat)
    requires rows > 0 && row < rows
    ensures var idx := Index(rows, row, column);
            Cells(texts, rows, columns, RowIndices(|texts|, rows, row, column + 1)) ==
            Cells(texts, rows, columns, RowIndices(|texts|, rows, row, column)) +
            if idx < |texts| then Cell(texts, rows, columns, idx) else ""
    ensures ColumnOf(Index(rows, row, column), rows) == column
  {
    PlaceOfIndex(rows, row, column);
    var before, idx := RowIndices(|texts|, rows, row, column), Index(rows, row, column);
    var now := RowIndices(|texts|, rows, row, column + 1);
    if idx < |texts| {
      assert now == before + [idx] && now[..|now| - 1] == before;
    } else {
      assert now == before;
    }
  }

  lemma NoCells(texts: seq<string>, rows: nat, columns: nat, row: nat)
    requires rows > 0
    ensures Cells(texts, rows, columns, RowIndices(|texts|, rows, row, 0)) == ""
  {
  }

  lemma IndexIs(rows: nat, row: nat, column: nat)
    ensures Index(rows, row, column) == column * rows + row
  {
  }

  lemma CellParts(line: string, texts: seq<string>, rows: nat, columns: nat, i: nat)
    requires rows > 0 && i < |texts|
    ensures var column := ColumnOf(i, rows);
            line + Cell(texts, rows, columns, i) ==
            (if column == 0 then line + "  " else line) + Padded(texts[i], Width(texts, rows, column)) +
            (if column < columns - 1 then "  " else "")
  {
  }

  method PrintRow(texts: seq<string>, rows: nat, widths: array<nat>, row: nat) returns (line: string)
    requires rows > 0 && row < rows
    requires forall c | 0 <= c < widths.Length :: widths[c] == Width(texts, rows, c)
    ensures line == Line(texts, rows, widths.Length, row)
  {
    hide Cells, Cell, RowIndices, Width, Index;
    var columns := widths.Length;
    line := "";
    NoCells(texts, rows, columns, row);
    for column := 0 to columns
      invariant line == Cells(texts, rows, columns, RowIndices(|texts|, rows, row, column))
    {
      var idx := column * rows + row;
      IndexIs(rows, row, column);
      OneMoreCell(texts, rows, columns, row, column);
      if idx >= |texts| {
        continue;
      }
      CellParts(line, texts, rows, columns, idx);
      if column == 0 {
        line := line + "  ";
      }
      line := line + Padded(texts[idx], widths[column]);
      if column < columns - 1 {
        line := line + "  ";
      }
    }
  }

  /** Nothing without strings or a terminal; otherwise the lines of the chosen table. */
  method ColumnizeText(texts: seq<string>, terminal: Option<nat>) returns (result: Option<string>, columns: nat)
    ensures result.None? <==> texts == [] || terminal.None?
    ensures result.Some? ==>
              && 1 <= columns <= |texts|
              && (Feasible(texts, columns, terminal.value) || columns == 1)
              && (forall c | 1 <= c <= |texts| && Feasible(texts, c, terminal.value) ::
                    Feasible(texts, columns, terminal.value) && Rows(|texts|, columns) <= Rows(|texts|, c))
              && Rows(|texts|, columns) > 0
              && result.value == Lines(texts, Rows(|texts|, columns), columns, Rows(|texts|, columns))
  {
    hide Feasible, Rows, Line, Width;
    columns := 1;
    if texts == [] || terminal.None? {
      return None, columns;
    }
    columns := ChooseColumns(texts, terminal.value);
    var rows, widths := ColumnWidths(texts, columns);
    var text := "";
    for row := 0 to rows
      invariant text == Lines(texts, rows, columns, row) && widths.Length == columns
      invariant forall c | 0 <= c < columns :: widths[c] == Width(texts, rows, c)
    {
      var line := PrintRow(texts, rows, widths, row);
      text := text + line;
      text := text + "\n";
    }
    result := Some(text);
  }

  // ---------- what the table shows ----------

  function AllIndices(n: nat, rows: nat, columns: nat, upTo: nat): seq<nat> {
    if upTo == 0 then [] else AllIndices(n, rows, columns, upTo - 1) + RowIndices(n, rows, upTo - 1, columns)
  }

  lemma {:induction false} RowShows(n: nat, rows: nat, row: nat, columns: nat, i: nat)
    requires rows > 0 && row < rows
    ensures multiset(RowIndices(n, rows, row, columns))[i] ==
            if i < n && RowOf(i, rows) == row && ColumnOf(i, rows) < columns then 1 else 0
  {
    hide *;
    if columns > 0 {
      RowShowsMore(n, rows, row, columns, i);
      RowShows(n, rows, row, columns - 1, i);
      IsAt(i, rows, row, columns - 1);
    } else {
      NoIndices(n, rows, row);
    }
  }

  lemma NoIndices(n: nat, rows: nat, row: nat)
    ensures RowIndices(n, rows, row, 0) == []
  {
  }

  lemma RowShowsMore(n: nat, rows: nat, row: nat, columns: nat, i: nat)
    requires columns > 0
    ensures var idx := Index(rows, row, columns - 1);
            multiset(RowIndices(n, rows, row, columns))[i] ==
            multiset(RowIndices(n, rows, row, columns - 1))[i] + if idx < n && idx == i then 1 else 0
  {
    var before, idx := RowIndices(n, rows, row, columns - 1), Index(rows, row, columns - 1);
    Counts(before, if idx < n then [idx] else [], i);
  }

  lemma Counts(a: seq<nat>, b: seq<nat>, i: nat)
    ensures multiset(a + b)[i] == multiset(a)[i] + multiset(b)[i]
  {
    assert multiset(a + b) == multiset(a) + multiset(b);
  }

  lemma {:induction false} RowsShow(n: nat, rows: nat, columns: nat, upTo: nat, i: nat)
    requires rows > 0 && upTo <= rows
    ensures multiset(AllIndices(n, rows, columns, upTo))[i] ==
            if i < n && RowOf(i, rows) < upTo && ColumnOf(i, rows) < columns then 1 else 0
  {
    hide RowOf, ColumnOf, RowIndices;
    if upTo > 0 {
      RowsShow(n, rows, columns, upTo - 1, i);
      RowShows(n, rows, upTo - 1, columns, i);
      Counts(AllIndices(n, rows, columns, upTo - 1), RowIndices(n, rows, upTo - 1, columns), i);
    }
  }

  /** For any number of columns, every string is shown exactly once. */
  lemma ShownOnce(n: nat, columns: nat, i: nat)
    requires n > 0 && columns > 0
    ensures var rows := Rows(n, columns);
            multiset(AllIndices(n, rows, columns, rows))[i] == if i < n then 1 else 0
  {
    RowsCover(n, columns);
    RowsShow(n, Rows(n, columns), columns, Rows(n, columns), i);
    if i < n {
      ColumnInBounds(i, n, columns);
    }
  }

  /** Where a column starts. */
  function Offset(texts: seq<string>, rows: nat, column: nat): nat
    requires rows > 0
  {
    2 + WidthSum(texts, rows, column) + 2 * column
  }

  lemma CellLength(texts: seq<string>, rows: nat, columns: nat, row: nat, column: nat)
    requires row < rows && Index(rows, row, column) < |texts|
    ensures |Cell(texts, rows, columns, Index(rows, row, column))| ==
            (if column == 0 then 2 else 0) + Width(texts, rows, column) + (if column < columns - 1 then 2 else 0)
  {
    PlaceOfIndex(rows, row, column);
    WidthUpToIsMaximum(texts, |texts|, rows, column);
    hide Index, ColumnOf, RowOf;
  }

  /** A row whose last cell is taken has all its cells taken, each as wide as its column. */
  lemma {:induction false} FullRow(texts: seq<string>, rows: nat, columns: nat, row: nat, column: nat)
    requires row < rows && 0 < column <= columns && Index(rows, row, column - 1) < |texts|
    ensures |Cells(texts, rows, columns, RowIndices(|texts|, rows, row, column))| ==
            Offset(texts, rows, column) - if column < columns then 0 else 2
    decreases column
  {
    hide Index, ColumnOf, RowOf, Cells, Cell, RowIndices, Width;
    OneMoreCell(texts, rows, columns, row, column - 1);
    CellLength(texts, rows, columns, row, column - 1);
    if column > 1 {
      PlaceOfIndex(rows, row, column - 2);
      FullRow(texts, rows, columns, row, column - 1);
    } else {
      NoCells(texts, rows, columns, row);
      NoWidths(texts, rows);
      assert WidthSum(texts, rows, 1) == Width(texts, rows, 0);
    }
  }

  lemma {:induction false} RowGrows(texts: seq<string>, rows: nat, columns: nat, row: nat, column: nat, upTo: nat)
    requires rows > 0 && row < rows && column <= upTo
    ensures Cells(texts, rows, columns, RowIndices(|texts|, rows, row, column)) <=
            Cells(texts, rows, columns, RowIndices(|texts|, rows, row, upTo))
    decreases upTo
  {
    hide Index, ColumnOf, RowOf, Cells, Cell, RowIndices;
    if column < upTo {
      RowGrows(texts, rows, columns, row, column, upTo - 1);
      OneMoreCell(texts, rows, columns, row, upTo - 1);
    }
  }

  /** Every string stands in its row where its column starts. */
  lemma TextInPlace(texts: seq<string>, columns: nat, i: nat)
    requires 0 < columns && i < |texts|
    ensures var rows := Rows(|texts|, columns);
            && rows > 0
            && var line, from := Line(texts, rows, columns, RowOf(i, rows)), Offset(texts, rows, ColumnOf(i, rows));
            from + |texts[i]| <= |line| && line[from..from + |texts[i]|] == texts[i]
  {
    RowsCover(|texts|, columns);
    ColumnInBounds(i, |texts|, columns);
    var rows := Rows(|texts|, columns);
    IndexOfPlace(i, rows);
    CellInPlace(texts, rows, columns, RowOf(i, rows), ColumnOf(i, rows));
  }

  lemma CellInPlace(texts: seq<string>, rows: nat, columns: nat, row: nat, column: nat)
    requires row < rows && column < columns && Index(rows, row, column) < |texts|
    ensures var line, from, text :=
              Line(texts, rows, columns, row), Offset(texts, rows, column), texts[Index(rows, row, column)];
            from + |text| <= |line| && line[from..from + |text|] == text
  {
    hide Index, RowOf, ColumnOf, Cells, Cell, RowIndices, WidthSum, Width;
    var i := Index(rows, row, column);
    var before := Cells(texts, rows, columns, RowIndices(|texts|, rows, row, column));
    OneMoreCell(texts, rows, columns, row, column);
    RowGrows(texts, rows, columns, row, column + 1, columns);
    CellStarts(texts, rows, columns, i);
    if column > 0 {
      PlaceOfIndex(rows, row, column - 1);
      FullRow(texts, rows, columns, row, column);
    } else {
      NoCells(texts, rows, columns, row);
      NoWidths(texts, rows);
    }
    var indent := if column == 0 then 2 else 0;
    Inside(before, Cell(texts, rows, columns, i), Line(texts, rows, columns, row), indent, texts[i]);
  }

  lemma NoWidths(texts: seq<string>, rows: nat)
    requires rows > 0
    ensures WidthSum(texts, rows, 0) == 0
  {
  }

  lemma CellStarts(texts: seq<string>, rows: nat, columns: nat, i: nat)
    requires rows > 0 && i < |texts|
    ensures var cell, indent := Cell(texts, rows, columns, i), if ColumnOf(i, rows) == 0 then 2 else 0;
            indent + |texts[i]| <= |cell| && cell[indent..indent + |texts[i]|] == texts[i]
  {
  }

  lemma Inside(before: string, cell: string, line: string, indent: nat, text: string)
    requires before + cell <= line && indent + |text| <= |cell| && cell[indent..indent + |text|] == text
    ensures var from := |before| + indent; from + |text| <= |line| && line[from..from + |text|] == text
  {
    var from := |before| + indent;
    forall k | 0 <= k < |text|
      ensures line[from + k] == text[k]
    {
      assert line[from + k] == (before + cell)[from + k] == cell[indent + k] == cell[indent..indent + |text|][k];
    }
  }

  /** No line of a table is longer than its width and the indent. */
  lemma LineFits(texts: seq<string>, columns: nat, row: nat)
    requires 0 < columns && texts != [] && row < Rows(|texts|, columns)
    ensures |Line(texts, Rows(|texts|, columns), columns, row)| <= TotalWidth(texts, columns) + 2
  {
    var rows := Rows(|texts|, columns);
    LineUpTo(texts, rows, columns, row, columns);
  }

  /** So once any number of columns fits, the chosen one does, and no line is more than two too long. */
  lemma FeasibleLines(texts: seq<string>, columns: nat, width: nat, row: nat)
    requires 0 < columns && texts != [] && Feasible(texts, columns, width) && row < Rows(|texts|, columns)
    ensures |Line(texts, Rows(|texts|, columns), columns, row)| <= width + 2
  {
    LineFits(texts, columns, row);
  }

  lemma {:induction false} LineUpTo(texts: seq<string>, rows: nat, columns: nat, row: nat, column: nat)
    requires row < rows && 0 < column <= columns
    ensures |Cells(texts, rows, columns, RowIndices(|texts|, rows, row, column))| <=
            Offset(texts, rows, column) - if column < columns then 0 else 2
    decreases column
  {
    hide Index, ColumnOf, RowOf, Cell, Cells, RowIndices, Width;
    NoCells(texts, rows, columns, row);
    OneMoreCell(texts, rows, columns, row, column - 1);
    if Index(rows, row, column - 1) < |texts| {
      CellLength(texts, rows, columns, row, column - 1);
    }
    if column > 1 {
      LineUpTo(texts, rows, columns, row, column - 1);
    }
  }

  /** How many columns hold a string; in the others there is none. */
  function UsedColumns(n: nat, columns: nat): nat
    requires n > 0 && columns > 0
  {
    RowsCover(n, columns);
    ColumnOf(n - 1, Rows(n, columns)) + 1
  }

  lemma UsedExactly(n: nat, columns: nat)
    requires n > 0 && columns > 0
    ensures var rows, used := Rows(n, columns), UsedColumns(n, columns);
            rows > 0 && used <= columns && Index(rows, 0, used - 1) < n && forall row | 0 <= row :: Index(rows, row, used) >= n
  {
    RowsCover(n, columns);
    ColumnInBounds(n - 1, n, columns);
    var rows, used := Rows(n, columns), UsedColumns(n, columns);
    IndexOfPlace(n - 1, rows);
    PlaceOfIndex(rows, 0, used - 1);
  }

  /** Behind the used columns a row gets no longer. */
  lemma {:induction false} RowEnds(texts: seq<string>, rows: nat, columns: nat, row: nat, used: nat, column: nat)
    requires row < rows && used <= column && Index(rows, row, used) >= |texts|
    ensures RowIndices(|texts|, rows, row, column) == RowIndices(|texts|, rows, row, used)
    decreases column
  {
    if used < column {
      RowEnds(texts, rows, columns, row, used, column - 1);
      MulGrows(used, column - 1, rows);
    }
  }

  /** The longest a line of a table can be; its first line is that long. */
  function LongestLine(texts: seq<string>, columns: nat): nat
    requires 0 < columns && texts != []
  {
    RowsCover(|texts|, columns);
    var used := UsedColumns(|texts|, columns);
    Offset(texts, Rows(|texts|, columns), used) - if used < columns then 0 else 2
  }

  /** A column in which there is no string has no width. */
  lemma EmptyColumn(texts: seq<string>, rows: nat, column: nat)
    requires rows > 0 && Index(rows, 0, column) >= |texts|
    ensures Width(texts, rows, column) == 0
  {
    WidthUpToIsMaximum(texts, |texts|, rows, column);
    hide Index, ColumnOf, RowOf;
    if Width(texts, rows, column) > 0 {
      var k :| 0 <= k < |texts| && ColumnOf(k, rows) == column && |texts[k]| == Width(texts, rows, column);
      IndexOfPlace(k, rows);
      IndexGrows(rows, RowOf(k, rows), column);
    }
  }

  lemma IndexGrows(rows: nat, row: nat, column: nat)
    ensures Index(rows, 0, column) <= Index(rows, row, column)
  {
  }

  lemma {:induction false} EmptyColumns(texts: seq<string>, rows: nat, used: nat, columns: nat)
    requires rows > 0 && used <= columns && Index(rows, 0, used) >= |texts|
    ensures WidthSum(texts, rows, columns) == WidthSum(texts, rows, used)
    decreases columns
  {
    if used < columns {
      MulGrows(used, columns - 1, rows);
      EmptyColumns(texts, rows, used, columns - 1);
      EmptyColumn(texts, rows, columns - 1);
    }
  }

  /** The width the search measures is that of the longest line but for the indent and the spaces around empty columns. */
  lemma TotalWidthExact(texts: seq<string>, columns: nat)
    requires 0 < columns && texts != []
    ensures var used := UsedColumns(|texts|, columns);
            TotalWidth(texts, columns) + 2 ==
            LongestLine(texts, columns) + if used < columns then 2 * (columns - used) - 2 else 0
  {
    var rows, used := Rows(|texts|, columns), UsedColumns(|texts|, columns);
    UsedExactly(|texts|, columns);
    hide Rows, UsedColumns, Index;
    EmptyColumns(texts, rows, used, columns);
  }

  lemma LineAtMost(texts: seq<string>, columns: nat, row: nat)
    requires 0 < columns && texts != [] && row < Rows(|texts|, columns)
    ensures |Line(texts, Rows(|texts|, columns), columns, row)| <= LongestLine(texts, columns)
  {
    var rows, used := Rows(|texts|, columns), UsedColumns(|texts|, columns);
    UsedExactly(|texts|, columns);
    hide Index, Rows, UsedColumns, Offset, RowIndices, Cells;
    RowEnds(texts, rows, columns, row, used, columns);
    LineUpTo(texts, rows, columns, row, used);
  }

  lemma FirstLineLongest(texts: seq<string>, columns: nat)
    requires 0 < columns && texts != []
    ensures Rows(|texts|, columns) > 0
    ensures |Line(texts, Rows(|texts|, columns), columns, 0)| == LongestLine(texts, columns)
  {
    var rows, used := Rows(|texts|, columns), UsedColumns(|texts|, columns);
    UsedExactly(|texts|, columns);
    hide Index, Rows, UsedColumns, Offset, RowIndices, Cells;
    RowEnds(texts, rows, columns, 0, used, columns);
    FullRow(texts, rows, columns, 0, used);
  }

  /**
    When all lines of a table fit a width: if and only if the indent, the columns that hold a
    string and the spaces behind them do, without those behind the last column there is.
   */
  lemma LinesFitExactly(texts: seq<string>, columns: nat, width: nat)
    requires 0 < columns && texts != []
    ensures Rows(|texts|, columns) > 0
    ensures (forall row | 0 <= row < Rows(|texts|, columns) :: |Line(texts, Rows(|texts|, columns), columns, row)| <= width)
            <==> LongestLine(texts, columns) <= width
  {
    FirstLineLongest(texts, columns);
    hide Line, LongestLine, Rows;
    forall row | 0 <= row < Rows(|texts|, columns)
      ensures |Line(texts, Rows(|texts|, columns), columns, row)| <= LongestLine(texts, columns)
    {
      LineAtMost(texts, columns, row);
    }
  }

  /** A table that fits by its width can have a line that is two characters too long. */
  lemma IndentCounts()
    ensures var one := ["abc"]; Feasible(one, 1, 3) && LongestLine(one, 1) == 5
  {
    var one := ["abc"];
    assert Rows(1, 1) == 1 && ColumnOf(0, 1) == 0;
    assert WidthUpTo(one, 1, 1, 0) == 3;
    assert WidthSum(one, 1, 1) == 3;
  }
}
