/** What a table prints: the lines there are, in their order, and what each cell shows in its
    line. */
module Printed {
  import opened Text
  import opened Terminal
  import opened Table
  import opened Alignment

  /** Every line a table has: its header, its rule, one line for each row. */
  function AllLines(style: Style, headers: seq<string>, rows: seq<seq<string>>): (lines: seq<string>)
    ensures |lines| == 2 + |rows|
  {
    var widths := Widths(headers, rows);
    [JoinRow(HeadCells(style, headers, widths), widths), RuleLine(style, TotalWidth(widths))] + RowLines(rows, widths)
  }

  function RowLines(rows: seq<seq<string>>, widths: seq<nat>): (lines: seq<string>)
    ensures |lines| == |rows|
  {
    seq(|rows|, k requires 0 <= k < |rows| => JoinRow(RowCells(rows[k], |widths|), widths))
  }

  // ---------------------------------------------------------------- the lines

  /** Lines with a newline behind each. */
  function Block(lines: seq<string>): string {
    if lines == [] then "" else lines[0] + ['\n'] + Block(lines[1..])
  }

  lemma {:induction false} RowsBlock(rows: seq<seq<string>>, widths: seq<nat>)
    ensures RowsText(rows, widths) == Block(RowLines(rows, widths))
  {
    if rows != [] {
      RowsBlock(rows[1..], widths);
      assert RowLines(rows, widths)[1..] == RowLines(rows[1..], widths);
    }
  }

  /** Lines that are left alone at their ends, and hold no newline. */
  ghost predicate CleanLines(lines: seq<string>) {
    forall k :: 0 <= k < |lines| ==> '\n' !in lines[k] && TrimEnd(lines[k]) == lines[k]
  }

  /** `printed` has the lines but for empty ones at the end. */
  ghost predicate AllButBlank(printed: seq<string>, lines: seq<string>) {
    && |printed| <= |lines|
    && (forall k :: 0 <= k < |printed| ==> printed[k] == lines[k])
    && (forall k :: |printed| <= k < |lines| ==> lines[k] == "")
  }

  lemma {:induction false} BlockSnoc(front: seq<string>, line: string)
    ensures Block(front + [line]) == Block(front) + line + ['\n']
    decreases |front|
  {
    if front == [] {
      assert [line][1..] == [];
      assert front + [line] == [line];
    } else {
      BlockSnoc(front[1..], line);
      assert (front + [line])[1..] == front[1..] + [line];
      Regroup(front[0], Block(front[1..]), line);
    }
  }

  lemma Regroup(first: string, block: string, line: string)
    ensures first + ['\n'] + (block + line + ['\n']) == first + ['\n'] + block + line + ['\n']
  {
  }

  lemma {:induction false} BlockSplits(lines: seq<string>, last: string)
    requires '\n' !in last && forall k :: 0 <= k < |lines| ==> '\n' !in lines[k]
    ensures Split(Block(lines) + last, '\n') == lines + [last]
    decreases |lines|
  {
    if lines == [] {
      assert Block(lines) + last == last;
      SplitSingle(last, '\n');
    } else {
      BlockSplits(lines[1..], last);
      SplitCons(lines[0], Block(lines[1..]) + last, '\n');
      assert Block(lines) + last == lines[0] + ['\n'] + (Block(lines[1..]) + last);
      assert lines + [last] == [lines[0]] + (lines[1..] + [last]);
    }
  }

  /** Trimming the end of a block of clean lines drops the empty lines at its end. */
  lemma {:induction false} TrimmedBlock(lines: seq<string>)
    requires lines != [] && CleanLines(lines)
    ensures AllButBlank(Split(TrimEnd(Block(lines)), '\n'), lines)
    decreases |lines|
  {
    var front, line := lines[..|lines| - 1], lines[|lines| - 1];
    assert lines == front + [line];
    BlockSnoc(front, line);
    var text := Block(front) + line;
    NewlineTrimmed(text);
    if line == "" && front != [] {
      assert text == Block(front);
      TrimmedBlock(front);
    } else {
      EndTrimmed(Block(front), line);
      BlockSplits(front, line);
    }
  }

  lemma NewlineTrimmed(text: string)
    ensures TrimEnd(text + ['\n']) == TrimEnd(text)
  {
    assert (text + ['\n'])[..|text|] == text;
  }

  lemma EndTrimmed(block: string, line: string)
    requires TrimEnd(line) == line && (line == "" ==> block == "")
    ensures TrimEnd(block + line) == block + line
  {
    TrimEndMeaning(line);
    if line != "" {
      assert (block + line)[|block + line| - 1] == line[|line| - 1];
    }
  }

  lemma TrimTwice(text: string)
    ensures TrimEnd(TrimEnd(text)) == TrimEnd(text)
  {
    TrimEndMeaning(text);
  }

  lemma RuleTrimmed(style: Style, width: nat)
    ensures TrimEnd(RuleLine(style, width)) == RuleLine(style, width)
  {
    if width > 0 {
      RuleTidy(style, width);
    }
  }

  lemma HeadClean(style: Style, headers: seq<string>, rows: seq<seq<string>>)
    requires NoNewlines(headers)
    ensures CleanLines([AllLines(style, headers, rows)[0]])
  {
    var widths := Widths(headers, rows);
    HeadFits(style, headers, rows);
    JoinRowWidth(HeadCells(style, headers, widths), widths);
    TrimTwice(JoinFrom(HeadCells(style, headers, widths), widths, 0));
  }

  lemma RowClean(headers: seq<string>, rows: seq<seq<string>>, k: nat)
    requires k < |rows| && NoNewlines(rows[k])
    ensures CleanLines([RowLines(rows, Widths(headers, rows))[k]])
  {
    var widths := Widths(headers, rows);
    RowFits(headers, rows, k);
    JoinRowWidth(RowCells(rows[k], |headers|), widths);
    TrimTwice(JoinFrom(RowCells(rows[k], |headers|), widths, 0));
  }

  lemma RowsClean(headers: seq<string>, rows: seq<seq<string>>)
    requires forall k :: 0 <= k < |rows| ==> NoNewlines(rows[k])
    ensures CleanLines(RowLines(rows, Widths(headers, rows)))
  {
    var lines := RowLines(rows, Widths(headers, rows));
    forall k | 0 <= k < |lines|
      ensures '\n' !in lines[k] && TrimEnd(lines[k]) == lines[k]
    {
      RowClean(headers, rows, k);
      assert [lines[k]][0] == lines[k];
    }
  }

  lemma CleanTogether(head: string, rule: string, lines: seq<string>)
    requires CleanLines([head]) && CleanLines([rule]) && CleanLines(lines)
    ensures CleanLines([head, rule] + lines)
  {
    assert [head][0] == head && [rule][0] == rule;
  }

  lemma LinesClean(style: Style, headers: seq<string>, rows: seq<seq<string>>)
    requires NoNewlines(headers) && forall k :: 0 <= k < |rows| ==> NoNewlines(rows[k])
    ensures CleanLines(AllLines(style, headers, rows))
  {
    var lines, width := AllLines(style, headers, rows), TotalWidth(Widths(headers, rows));
    HeadClean(style, headers, rows);
    RuleLineWidth(style, width);
    RuleTrimmed(style, width);
    RowsClean(headers, rows);
    CleanTogether(lines[0], RuleLine(style, width), RowLines(rows, Widths(headers, rows)));
  }

  lemma BlockOfAll(head: string, rule: string, lines: seq<string>)
    ensures Block([head, rule] + lines) == head + ['\n'] + (rule + ['\n'] + Block(lines))
  {
    assert ([head, rule] + lines)[1..] == [rule] + lines;
    assert ([rule] + lines)[1..] == lines;
  }

  /** What is printed is exactly the header, the rule and the rows, each on a line of its own
      and in their order; only empty lines at the end are left out. */
  lemma PrintedLines(style: Style, headers: seq<string>, rows: seq<seq<string>>, caps: seq<nat>)
    requires rows != [] && NoNewlines(headers) && forall k :: 0 <= k < |rows| ==> NoNewlines(rows[k])
    ensures AllButBlank(Split(TableText(style, headers, rows, caps), '\n'), AllLines(style, headers, CapRows(rows, caps)))
  {
    var capped := CapRows(rows, caps);
    CapRowsNoNewlines(rows, caps);
    LinesClean(style, headers, capped);
    TrimmedBlock(AllLines(style, headers, capped));
    TextIsBlock(style, headers, rows, caps);
  }

  lemma TextIsBlock(style: Style, headers: seq<string>, rows: seq<seq<string>>, caps: seq<nat>)
    requires rows != []
    ensures TableText(style, headers, rows, caps) == TrimEnd(Block(AllLines(style, headers, CapRows(rows, caps))))
  {
    var capped := CapRows(rows, caps);
    var widths := Widths(headers, capped);
    RowsBlock(capped, widths);
    BlockOfAll(JoinRow(HeadCells(style, headers, widths), widths), RuleLine(style, TotalWidth(widths)), RowLines(capped, widths));
  }

  // ---------------------------------------------------------------- the cells

  /** What is seen of a cell: all that is visible of it, or if its column is capped below that,
      the start of it and an ellipsis. */
  function Seen(cell: string, cap: nat): string {
    var text := Plain(cell, false);
    if cap == 0 || |text| <= cap then text else text[..cap - 1] + [ELLIPSIS]
  }

  function CapOf(caps: seq<nat>, i: nat): nat {
    if i < |caps| then caps[i] else 0
  }

  /** A capped cell still leaves no escape open and is still tidy, and shows what is seen of it. */
  lemma CapShows(cell: string, caps: seq<nat>, i: nat)
    requires !EndsOpen(cell, false)
    ensures var capped := CapCell(cell, caps, i);
      && !EndsOpen(capped, false) && Plain(capped, false) == Seen(cell, CapOf(caps, i))
      && (Tidy(cell) ==> Tidy(capped))
  {
    var text := Plain(cell, false);
    var cap := CapOf(caps, i);
    if cap > 0 && |text| > cap {
      PlainHasNoEscape(cell, false);
      var cut := Truncate(text, cap);
      CutText(text, cap);
      assert ESC !in cut;
      EscapeFree(cut);
    }
  }

  lemma CutText(text: string, cap: nat)
    requires 0 < cap < |text|
    ensures Truncate(text, cap) == text[..cap - 1] + [ELLIPSIS] && Tidy(Truncate(text, cap))
  {
    assert text[..0] + [ELLIPSIS] == [ELLIPSIS][..1];
  }

  lemma CappedClosed(row: seq<string>, caps: seq<nat>)
    requires Closed(row)
    ensures Closed(CapRow(row, caps))
  {
    forall i | 0 <= i < |row|
      ensures !EndsOpen(CapRow(row, caps)[i], false)
    {
      CapShows(row[i], caps, i);
    }
  }

  /** Cells are shown in their order and apart. */
  lemma {:induction false} ColumnsApart(cells: seq<string>, widths: seq<nat>, i: nat, j: nat)
    requires |cells| == |widths| && i < j <= |cells|
    ensures Column(cells, widths, i) + Visible(cells[i]) + 3 <= Column(cells, widths, j)
    decreases j
  {
    if i < j - 1 {
      ColumnsApart(cells, widths, i, j - 1);
    }
  }

  /** The column in which the i-th cell of the k-th row is shown. */
  function ColumnOf(headers: seq<string>, rows: seq<seq<string>>, caps: seq<nat>, k: nat, i: nat): nat
    requires k < |rows| && i <= |headers|
  {
    var capped := CapRows(rows, caps);
    Column(RowCells(capped[k], |headers|), Widths(headers, capped), i)
  }

  lemma CappedShown(headers: seq<string>, rows: seq<seq<string>>, caps: seq<nat>, k: nat, i: nat)
    requires k < |rows| && i < |headers| && i < |rows[k]| && Closed(rows[k]) && Tidy(rows[k][i])
    ensures var capped := CapRows(rows, caps);
      StandsAt(Plain(RowLines(capped, Widths(headers, capped))[k], false), Seen(rows[k][i], CapOf(caps, i)), ColumnOf(headers, rows, caps, k, i))
  {
    var capped := CapRows(rows, caps);
    CappedClosed(rows[k], caps);
    CapShows(rows[k][i], caps, i);
    RowClosed(capped[k], |headers|);
    ShownAt(RowCells(capped[k], |headers|), Widths(headers, capped), i);
  }

  lemma SomethingShown(line: string, text: string, at: nat)
    requires StandsAt(Plain(line, false), text, at) && text != ""
    ensures line != ""
  {
  }

  lemma LineThere(printed: seq<string>, lines: seq<string>, k: nat)
    requires AllButBlank(printed, lines) && k < |lines| && lines[k] != ""
    ensures k < |printed| && printed[k] == lines[k]
  {
  }

  /** A row that shows something has its line. */
  lemma RowThere(style: Style, headers: seq<string>, rows: seq<seq<string>>, caps: seq<nat>, k: nat, line: string)
    requires NoNewlines(headers) && forall j :: 0 <= j < |rows| ==> NoNewlines(rows[j])
    requires k < |rows| && line == RowLines(CapRows(rows, caps), Widths(headers, CapRows(rows, caps)))[k] && line != ""
    ensures 2 + k < |Split(TableText(style, headers, rows, caps), '\n')|
    ensures Split(TableText(style, headers, rows, caps), '\n')[2 + k] == line
  {
    PrintedLines(style, headers, rows, caps);
    LineThere(Split(TableText(style, headers, rows, caps), '\n'), AllLines(style, headers, CapRows(rows, caps)), 2 + k);
  }

  /** Every row is on a line of its own, in order, below the rule, and every tidy cell of it
      stands there in its column: whole if its cap lets it through, and otherwise cut off by an
      ellipsis. */
  lemma CellPrinted(style: Style, headers: seq<string>, rows: seq<seq<string>>, caps: seq<nat>, k: nat, i: nat)
    requires NoNewlines(headers) && forall j :: 0 <= j < |rows| ==> NoNewlines(rows[j])
    requires k < |rows| && i < |headers| && i < |rows[k]|
    requires Closed(rows[k]) && Tidy(rows[k][i]) && Visible(rows[k][i]) > 0
    ensures var lines := Split(TableText(style, headers, rows, caps), '\n');
      && 2 + k < |lines|
      && StandsAt(Plain(lines[2 + k], false), Seen(rows[k][i], CapOf(caps, i)), ColumnOf(headers, rows, caps, k, i))
  {
    var line := RowLines(CapRows(rows, caps), Widths(headers, CapRows(rows, caps)))[k];
    var text, at := Seen(rows[k][i], CapOf(caps, i)), ColumnOf(headers, rows, caps, k, i);
    CappedShown(headers, rows, caps, k, i);
    SomethingShown(line, text, at);
    RowThere(style, headers, rows, caps, k, line);
  }

  /** The first line holds every header in its column, whole whatever the caps; the second is
      the rule. */
  lemma HeadPrinted(style: Style, headers: seq<string>, rows: seq<seq<string>>, caps: seq<nat>, i: nat)
    requires NoNewlines(headers) && forall j :: 0 <= j < |rows| ==> NoNewlines(rows[j])
    requires rows != [] && i < |headers| && Tidy(headers[i]) && forall j :: 0 <= j < |headers| ==> ESC !in headers[j]
    ensures var lines, widths := Split(TableText(style, headers, rows, caps), '\n'), Widths(headers, CapRows(rows, caps));
      && 2 <= |lines|
      && StandsAt(Plain(lines[0], false), headers[i], Column(HeadCells(style, headers, widths), widths, i))
      && Plain(lines[1], false) == seq(TotalWidth(widths), j => if style.unicode then '\U{2500}' else '-')
  {
    var capped := CapRows(rows, caps);
    var widths := Widths(headers, capped);
    var all := AllLines(style, headers, capped);
    PrintedLines(style, headers, rows, caps);
    HeadShown(style, headers, capped, i);
    SomethingShown(all[0], headers[i], Column(HeadCells(style, headers, widths), widths, i));
    LineThere(Split(TableText(style, headers, rows, caps), '\n'), all, 0);
    RuleShown(style, headers, capped, i);
    LineThere(Split(TableText(style, headers, rows, caps), '\n'), all, 1);
  }

  lemma HeadShown(style: Style, headers: seq<string>, rows: seq<seq<string>>, i: nat)
    requires i < |headers| && Tidy(headers[i]) && forall j :: 0 <= j < |headers| ==> ESC !in headers[j]
    ensures var widths := Widths(headers, rows);
      StandsAt(Plain(AllLines(style, headers, rows)[0], false), headers[i], Column(HeadCells(style, headers, widths), widths, i))
  {
    var widths := Widths(headers, rows);
    HeadClosed(style, headers, widths);
    HeadCell(style, headers, widths, i);
    ShownAt(HeadCells(style, headers, widths), widths, i);
  }

  lemma RuleShown(style: Style, headers: seq<string>, rows: seq<seq<string>>, i: nat)
    requires i < |headers| && headers[i] != ""
    ensures var width, line := TotalWidth(Widths(headers, rows)), AllLines(style, headers, rows)[1];
      line != "" && Plain(line, false) == seq(width, j => RuleGlyph(style))
  {
    var widths := Widths(headers, rows);
    ColumnWidthBounds(headers[i], rows, i);
    SumAtLeast(widths, i);
    var glyphs := seq(TotalWidth(widths), j => RuleGlyph(style));
    PaintShows(style, glyphs);
    assert |glyphs| > 0;
  }

  lemma {:induction false} SumAtLeast(s: seq<nat>, i: nat)
    requires i < |s|
    ensures s[i] <= Sum(s)
  {
    if i > 0 {
      SumAtLeast(s[1..], i - 1);
    }
  }
}
