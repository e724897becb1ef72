/** The text tables of the wallet command line. Models applications/tari_wallet_cli/src/table.rs. Strings stand for their
    bytes. */
module Tables {

  import opened Wrappers
  import opened Text

  type Row = seq<string>

  const DELIMITER := '|'

  // ---- Layout ----

  function Max(a: nat, b: nat): nat {
    if a <= b then b else a
  }

  function CellWidth(row: Row, column: nat): nat {
    if column < |row| then |row[column]| else 0
  }

  /** The widest cell of a column, over rows that may have fewer cells. */
  function RowsWidth(rows: seq<Row>, column: nat): (width: nat)
    ensures forall r :: r in rows ==> CellWidth(r, column) <= width
    ensures width == 0 || exists r :: r in rows && CellWidth(r, column) == width
  {
    if rows == [] then 0
    else
      var (init, last) := (rows[..|rows| - 1], rows[|rows| - 1]);
      assert rows == init + [last];
      Max(RowsWidth(init, column), CellWidth(last, column))
  }

  /** A cell with its padding: the first cell of a line has no space before it. */
  function Cell(text: string, width: nat, column: nat): string
    requires |text| <= width
  {
    Spaces(if column == 0 then 0 else 1) + text + Spaces(width - |text| + 1)
  }

  /** The line has the text at the place. */
  ghost predicate Shows(line: string, at: nat, text: string) {
    at + |text| <= |line| && line[at..at + |text|] == text
  }

  datatype Content = Content(titles: Option<Row>, rows: seq<Row>, countsRows: bool) {

    function ColWidth(column: nat): nat {
      Max(if titles.Some? then CellWidth(titles.value, column) else 0, RowsWidth(rows, column))
    }

    ghost predicate Fits(row: Row) {
      forall i :: 0 <= i < |row| ==> |row[i]| <= ColWidth(i)
    }

    ghost function Cells(row: Row): (cells: seq<string>)
      requires Fits(row)
      ensures |cells| == |row|
      ensures forall i :: 0 <= i < |row| ==> |cells[i]| == ColWidth(i) + if i == 0 then 1 else 2
    {
      seq(|row|, i requires 0 <= i < |row| => Cell(row[i], ColWidth(i), i))
    }

    ghost function Line(row: Row): string
      requires Fits(row)
    {
      if row == [] then "" else Join(Cells(row), DELIMITER)
    }

    /** Widths never fall short: titles and rows fit, however ragged. */
    lemma EveryRowFits()
      ensures titles.Some? ==> Fits(titles.value)
      ensures forall r :: r in rows ==> Fits(r)
      ensures Fits(Dashes())
    {
      forall r | r in rows ensures Fits(r) {
        forall i | 0 <= i < |r| ensures |r[i]| <= ColWidth(i) {
          assert CellWidth(r, i) == |r[i]|;
        }
      }
      if titles.Some? {
        forall i | 0 <= i < |titles.value| ensures |titles.value[i]| <= ColWidth(i) {
          assert CellWidth(titles.value, i) == |titles.value[i]|;
        }
      }
    }

    /** The cells of the separator line: as many as the first row has. */
    function Dashes(): Row {
      if rows == [] then [] else seq(|rows[0]|, i requires 0 <= i < |rows[0]| => Repeat('-', ColWidth(i)))
    }

    lemma DashCell(i: nat)
      requires Fits(Dashes()) && i < |Dashes()|
      ensures Cells(Dashes())[i] == (if i == 0 then "" else " ") + Repeat('-', ColWidth(i)) + " "
    {
    }

    /** Where the i-th delimiter of a line is. */
    ghost function Offset(column: nat): nat {
      if column == 0 then ColWidth(0) + 1 else Offset(column - 1) + ColWidth(column) + 3
    }

    lemma {:induction false} PrefixLength(row: Row, i: nat)
      requires Fits(row) && i < |row|
      ensures |Join(Cells(row)[..i + 1], DELIMITER)| == Offset(i)
    {
      hide Cells, ColWidth;
      if i == 0 {
        assert Cells(row)[..1] == [Cells(row)[0]];
      } else {
        PrefixLength(row, i - 1);
        assert Cells(row)[..i + 1] == Cells(row)[..i] + [Cells(row)[i]];
        JoinAppend(Cells(row)[..i], Cells(row)[i], DELIMITER);
      }
    }

    /** All lines with the same number of cells have the same length, and any two lines have their delimiters at the same
        offsets as far as both have them. */
    lemma LinesAlign(row: Row, i: nat)
      requires Fits(row) && i < |row|
      ensures |Line(row)| == Offset(|row| - 1)
      ensures i + 1 < |row| ==> Offset(i) < |Line(row)| && Line(row)[Offset(i)] == DELIMITER
    {
      hide Cells, ColWidth, Join;
      PrefixLength(row, |row| - 1);
      assert Cells(row)[..|row|] == Cells(row);
      if i + 1 < |row| {
        PrefixLength(row, i);
        JoinSplitsAt(Cells(row), i + 1);
      }
    }

    /** Where the text of a column starts. */
    ghost function Start(column: nat): nat {
      if column == 0 then 0 else Offset(column - 1) + 2
    }

    lemma JoinStarts(row: Row, i: nat)
      requires Fits(row) && i < |row|
      ensures Cells(row)[i] <= Join(Cells(row)[i..], DELIMITER)
    {
      hide Cells;
      assert Cells(row)[i..][0] == Cells(row)[i];
    }

    /** Cells are left-aligned: in every line the text of a column starts at the same place. */
    lemma CellsAreLeftAligned(row: Row, i: nat)
      requires Fits(row) && i < |row|
      ensures Shows(Line(row), Start(i), row[i])
    {
      hide ColWidth, Join;
      JoinStarts(row, i);
      var cells, text := Cells(row), row[i];
      var tail := Join(cells[i..], DELIMITER);
      assert tail[..|cells[i]|] == cells[i];
      if i == 0 {
        assert cells[0..] == cells;
        assert cells[0][..|text|] == text;
      } else {
        PrefixLength(row, i - 1);
        JoinSplitsAt(cells, i);
        assert cells[i][1..1 + |text|] == text;
        assert Line(row)[Offset(i - 1) + 1..] == tail;
      }
    }

    /** A line gives its row back. */
    lemma LineParses(row: Row)
      requires Fits(row) && row != []
      requires AllFree(row, DELIMITER) && forall i :: 0 <= i < |row| ==> Trimmed(row[i])
      ensures TrimAll(Split(Line(row), DELIMITER)) == row
    {
      forall i | 0 <= i < |row| ensures Free(Cells(row)[i], DELIMITER) && Trim(Cells(row)[i]) == row[i] {
        TrimPadded(if i == 0 then 0 else 1, row[i], ColWidth(i) - |row[i]| + 1);
      }
      SplitJoin(Cells(row), DELIMITER);
    }

    ghost function Lines(): (lines: seq<string>)
      ensures |lines| == |rows|
    {
      EveryRowFits();
      seq(|rows|, i requires 0 <= i < |rows| => Line(rows[i]))
    }

    ghost function TitleLine(): string {
      EveryRowFits();
      if titles.Some? then Line(titles.value) else ""
    }

    ghost function Separator(): string {
      EveryRowFits();
      Line(Dashes())
    }

    function RowCount(): string {
      Decimal(|rows|) + " row(s)"
    }

    function Footer(): string {
      if countsRows then "\n" + RowCount() + "\n" else ""
    }

    /** The whole table: the titles, the separator and the rows, one line each, and the row count if enabled. */
    ghost function Rendered(): string {
      TitleLine() + "\n" + Separator() + (if rows == [] then "" else "\n" + Join(Lines(), '\n') + "\n") + Footer()
    }

    /** The lines after the rows. */
    function LastLines(): seq<string> {
      if countsRows then ["", RowCount(), ""] else [""]
    }

    ghost predicate PlainCells(row: Row) {
      && AllFree(row, DELIMITER) && AllFree(row, '\n')
      && forall i :: 0 <= i < |row| ==> Trimmed(row[i])
    }

    lemma LineIsOneLine(row: Row)
      requires Fits(row) && AllFree(row, '\n')
      ensures Free(Line(row), '\n')
    {
      if row != [] {
        JoinIsFree(Cells(row), DELIMITER, '\n');
      }
    }

    lemma RenderedIsJoin()
      requires rows != []
      ensures Rendered() == Join([TitleLine(), Separator()] + Lines() + LastLines(), '\n')
    {
      hide TitleLine, Separator, Lines, Join, RowCount;
      var upper := [TitleLine(), Separator()] + Lines();
      JoinTwo(TitleLine(), Separator(), Lines());
      JoinAppend(upper, "", '\n');
      if countsRows {
        JoinAppend(upper + [""], RowCount(), '\n');
        JoinAppend(upper + [""] + [RowCount()], "", '\n');
        assert upper + [""] + [RowCount()] + [""] == upper + LastLines();
      }
    }

    lemma LinesAreSingle()
      requires titles.Some? ==> PlainCells(titles.value)
      requires forall r :: r in rows ==> PlainCells(r)
      ensures AllFree([TitleLine(), Separator()] + Lines() + LastLines(), '\n')
    {
      hide Line, Cells, ColWidth, Fits, Decimal;
      EveryRowFits();
      forall i | 0 <= i < |rows| ensures Free(Lines()[i], '\n') {
        assert rows[i] in rows;
        LineIsOneLine(rows[i]);
      }
      if titles.Some? {
        LineIsOneLine(titles.value);
      }
      LineIsOneLine(Dashes());
    }

    /** Around the rows: the titles in the first line, dashes as wide as the columns in the second, and the number of rows
        in the last one but one. */
    lemma TableFrame(i: nat)
      requires rows != []
      requires titles.Some? ==> PlainCells(titles.value)
      requires forall r :: r in rows ==> PlainCells(r)
      ensures var lines := Split(Rendered(), '\n');
              && |lines| == |rows| + (if countsRows then 5 else 3)
              && (if titles.Some? && titles.value != [] then TrimAll(Split(lines[0], DELIMITER)) == titles.value
                  else lines[0] == "")
              && (i < |rows[0]| ==> Shows(lines[1], Start(i), Repeat('-', ColWidth(i))))
              && (countsRows ==> lines[|lines| - 2] == Decimal(|rows|) + " row(s)")
    {
      hide Join, Split, Cells, TrimAll, Rendered, AllFree, Decimal, ColWidth;
      EveryRowFits();
      LinesAreSingle();
      RenderedIsJoin();
      var lines := [TitleLine(), Separator()] + Lines() + LastLines();
      SplitJoin(lines, '\n');
      if titles.Some? && titles.value != [] {
        LineParses(titles.value);
      }
      if i < |rows[0]| {
        CellsAreLeftAligned(Dashes(), i);
      }
    }

    /** The rendered table read back line by line and cell by cell: every non-empty row of plain cells is recovered. */
    lemma TableParses(j: nat)
      requires j < |rows| && rows[j] != []
      requires titles.Some? ==> PlainCells(titles.value)
      requires forall r :: r in rows ==> PlainCells(r)
      ensures var lines := Split(Rendered(), '\n');
              |lines| == |rows| + (if countsRows then 5 else 3) && TrimAll(Split(lines[j + 2], DELIMITER)) == rows[j]
    {
      hide Join, Split, Cells, Line, TrimAll, Rendered, TitleLine, Separator, AllFree, Fits, RowCount;
      EveryRowFits();
      LinesAreSingle();
      RenderedIsJoin();
      var lines := [TitleLine(), Separator()] + Lines() + LastLines();
      SplitJoin(lines, '\n');
      assert rows[j] in rows;
      assert lines[j + 2] == Line(rows[j]);
      LineParses(rows[j]);
    }
  }

  /** The number that decimal digits denote. */
  function DecimalValue(digits: string): nat
    requires forall i :: 0 <= i < |digits| ==> '0' <= digits[i] <= '9'
  {
    if digits == "" then 0
    else 10 * DecimalValue(digits[..|digits| - 1]) + (digits[|digits| - 1] as int - '0' as int)
  }

  lemma {:induction false} DecimalDenotes(n: nat)
    ensures DecimalValue(Decimal(n)) == n
  {
    if n >= 10 {
      DecimalDenotes(n / 10);
      assert Decimal(n)[..|Decimal(n)| - 1] == Decimal(n / 10);
    } else {
      assert Decimal(n)[..0] == "";
    }
  }

  /** A number in decimal. */
  function Decimal(n: nat): (digits: string)
    ensures forall i :: 0 <= i < |digits| ==> '0' <= digits[i] <= '9'
  {
    var digit := ('0' as int + n % 10) as char;
    if n < 10 then [digit] else Decimal(n / 10) + [digit]
  }

  function Repeat(c: char, n: nat): (s: string)
    ensures |s| == n && forall i :: 0 <= i < n ==> s[i] == c
  {
    seq(n, i => c)
  }

  lemma {:induction false} JoinSplitsAt(parts: seq<string>, k: nat)
    requires 0 < k < |parts|
    ensures Join(parts, DELIMITER) == Join(parts[..k], DELIMITER) + [DELIMITER] + Join(parts[k..], DELIMITER)
  {
    if k == 1 {
      assert parts[..1] == [parts[0]];
    } else {
      JoinSplitsAt(parts[1..], k - 1);
      assert parts[1..][..k - 1] == parts[..k][1..];
      assert parts[1..][k - 1..] == parts[k..];
    }
  }

  lemma JoinTwo(first: string, second: string, rest: seq<string>)
    requires rest != []
    ensures Join([first, second] + rest, '\n') == first + "\n" + second + "\n" + Join(rest, '\n')
  {
    assert ([first, second] + rest)[1..] == [second] + rest;
    assert ([second] + rest)[1..] == rest;
  }

  lemma {:induction false} JoinIsFree(parts: seq<string>, delimiter: char, c: char)
    requires 0 < |parts| && AllFree(parts, c) && c != delimiter
    ensures Free(Join(parts, delimiter), c)
  {
    if |parts| > 1 {
      JoinIsFree(parts[1..], delimiter, c);
    }
  }

  /** The first `i` parts as a loop writes them: a delimiter after each part but the last. */
  ghost function Written(parts: seq<string>, i: nat, delimiter: char): string
    requires i <= |parts|
  {
    if i == 0 then "" else Join(parts[..i], delimiter) + if i < |parts| then [delimiter] else ""
  }

  lemma NothingWritten(parts: seq<string>, delimiter: char)
    ensures Written(parts, 0, delimiter) == ""
  {
  }

  lemma OneMoreWritten(parts: seq<string>, i: nat, delimiter: char)
    requires i < |parts|
    ensures Written(parts, i + 1, delimiter) ==
            Written(parts, i, delimiter) + parts[i] + if i + 1 < |parts| then [delimiter] else ""
  {
    if i == 0 {
      assert parts[..1] == [parts[0]];
    } else {
      JoinAppend(parts[..i], parts[i], delimiter);
      assert parts[..i + 1] == parts[..i] + [parts[i]];
    }
  }

  lemma AllWritten(parts: seq<string>, delimiter: char)
    requires parts != []
    ensures Written(parts, |parts|, delimiter) == Join(parts, delimiter)
  {
    assert parts[..|parts|] == parts;
  }

  /** A table under construction. */
  class Table {
    var titles: Option<Row>
    var rows: seq<Row>
    var countsRows: bool

    ghost function View(): Content
      reads this
    {
      Content(titles, rows, countsRows)
    }

    constructor ()
      ensures View() == Content(None, [], false)
    {
      titles, rows, countsRows := None, [], false;
    }

    method SetTitles(row: Row)
      modifies this
      ensures View() == old(View()).(titles := Some(row))
    {
      titles := Some(row);
    }

    method EnableRowCount()
      modifies this
      ensures View() == old(View()).(countsRows := true)
    {
      countsRows := true;
    }

    method AddRow(row: Row)
      modifies this
      ensures View() == old(View()).(rows := old(rows) + [row])
    {
      rows := rows + [row];
    }

    /** The widest cell, folded over the rows. */
    method ColWidth(column: nat) returns (width: nat)
      ensures width == View().ColWidth(column)
    {
      var rowsWidth := 0;
      for i := 0 to |rows|
        invariant rowsWidth == RowsWidth(rows[..i], column)
      {
        assert rows[..i + 1][..i] == rows[..i];
        if column < |rows[i]| {
          rowsWidth := Max(rowsWidth, |rows[i][column]|);
        }
      }
      assert rows[..|rows|] == rows;
      var titleWidth := if titles.Some? && column < |titles.value| then |titles.value[column]| else 0;
      width := Max(titleWidth, rowsWidth);
    }

    method RenderRow(row: Row) returns (out: string)
      requires View().Fits(row)
      ensures out == View().Line(row)
    {
      hide Content.ColWidth, Join;
      out := "";
      ghost var cells := View().Cells(row);
      for i := 0 to |row|
        invariant out == Written(cells, i, DELIMITER)
      {
        hide Content.ColWidth, Written;
        var width := ColWidth(i);
        ghost var before := out;
        out := out + (if i == 0 then "" else " ");
        out := out + row[i];
        out := out + Spaces(width - |row[i]| + 1);
        assert out == before + cells[i];
        OneMoreWritten(cells, i, DELIMITER);
        if i < |row| - 1 {
          out := out + [DELIMITER];
        }
      }
      if row != [] {
        AllWritten(cells, DELIMITER);
      }
    }

    method RenderSeparator() returns (out: string)
      ensures out == View().Separator()
    {
      hide Content.ColWidth, Content.Cells, Content.Fits, Written, Join, Repeat;
      View().EveryRowFits();
      out := "";
      if rows == [] {
        return;
      }
      ghost var cells := View().Cells(View().Dashes());
      NothingWritten(cells, DELIMITER);
      for i := 0 to |rows[0]|
        invariant out == Written(cells, i, DELIMITER)
      {
        var width := ColWidth(i);
        View().DashCell(i);
        OneMoreWritten(cells, i, DELIMITER);
        ghost var before := out;
        out := out + (if i == 0 then "" else " ");
        out := out + Repeat('-', width);
        out := out + " ";
        assert out == before + cells[i];
        if i < |rows[0]| - 1 {
          out := out + [DELIMITER];
        }
      }
      if rows[0] != [] {
        AllWritten(cells, DELIMITER);
      }
    }

    method RenderRows() returns (out: string)
      ensures out == if rows == [] then "" else Join(View().Lines(), '\n')
    {
      hide Content.Line, Content.ColWidth;
      View().EveryRowFits();
      out := "";
      ghost var lines := View().Lines();
      for i := 0 to |rows|
        invariant out == Written(lines, i, '\n')
      {
        assert rows[i] in rows;
        var line := RenderRow(rows[i]);
        OneMoreWritten(lines, i, '\n');
        out := out + line;
        if i < |rows| - 1 {
          out := out + "\n";
        }
      }
      if rows != [] {
        AllWritten(lines, '\n');
      }
    }

    method Render() returns (out: string)
      ensures out == View().Rendered()
    {
      hide Content.Line, Content.Lines, Content.Separator, Content.Fits, Content.ColWidth, Join, Decimal;
      View().EveryRowFits();
      out := "";
      if titles.Some? {
        out := RenderRow(titles.value);
      }
      assert out == View().TitleLine();
      out := out + "\n";
      var separator := RenderSeparator();
      out := out + separator;
      ghost var head, body := out, "";
      if rows != [] {
        out := out + "\n";
        var lines := RenderRows();
        out := out + lines;
        out := out + "\n";
        body := "\n" + lines + "\n";
      }
      assert out == head + body;
      if countsRows {
        out := out + ("\n" + Decimal(|rows|) + " row(s)" + "\n");
        assert View().Footer() == "\n" + Decimal(|rows|) + " row(s)" + "\n";
      } else {
        assert out + "" == out;
      }
    }
  }
}
