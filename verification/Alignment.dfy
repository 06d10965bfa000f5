/** Whether the columns of a rendered table line up. `pad` counts every character of a cell,
    escapes included, while the widths it pads to count the visible ones. */
module Alignment {
  import opened Text
  import opened Numbers
  import opened Terminal
  import opened Table

  /** The column of the line where cell `i` belongs: after the widths and gaps before it. */
  function Offset(widths: seq<nat>, i: nat): nat
    requires i <= |widths|
  {
    if i == 0 then 0 else Offset(widths, i - 1) + widths[i - 1] + 3
  }

  /** What the line holds in front of cell `i`. */
  function Front(cells: seq<string>, widths: seq<nat>, i: nat): string
    requires |cells| == |widths| && i <= |cells|
  {
    if i == 0 then "" else Front(cells, widths, i - 1) + (Pad(cells[i - 1], widths[i - 1]) + "   ")
  }

  /** `cell` stands in the line from column `at` on. */
  predicate StandsAt(line: string, cell: string, at: nat) {
    at + |cell| <= |line| && line[at..at + |cell|] == cell
  }

  /** Cells that leave no escape open. */
  ghost predicate Closed(cells: seq<string>) {
    forall i :: 0 <= i < |cells| ==> !EndsOpen(cells[i], false)
  }

  /** What a padded cell shows: its visible part, and the fill its characters leave room for. */
  function Shown(cell: string, width: nat): nat {
    Visible(cell) + SaturatingSub(width, |cell|)
  }

  /** The column a cell is shown in: what the cells before it show, and the gaps. */
  function Column(cells: seq<string>, widths: seq<nat>, i: nat): nat
    requires |cells| == |widths| && i <= |cells|
  {
    if i == 0 then 0 else Column(cells, widths, i - 1) + Shown(cells[i - 1], widths[i - 1]) + 3
  }

  /** Padding to the width shows the width: the cell fills it, or nothing in it is invisible. */
  predicate PadsTrue(cell: string, width: nat) {
    Visible(cell) == width || Visible(cell) == |cell|
  }

  lemma {:induction false} EndsOpenConcat(a: string, b: string, open: bool)
    ensures EndsOpen(a + b, open) == EndsOpen(b, EndsOpen(a, open))
    decreases |a|
  {
    if a == [] {
      assert a + b == b;
    } else {
      assert (a + b)[1..] == a[1..] + b;
      EndsOpenConcat(a[1..], b, if open then a[0] != 'm' else a[0] == ESC);
    }
  }

  /** Closed texts are seen one after the other. */
  lemma ClosedConcat(a: string, b: string)
    requires !EndsOpen(a, false)
    ensures Plain(a + b, false) == Plain(a, false) + Plain(b, false)
    ensures EndsOpen(a + b, false) == EndsOpen(b, false)
  {
    PlainConcat(a, b, false);
    EndsOpenConcat(a, b, false);
  }

  lemma PlainSpaces(n: nat)
    ensures Plain(Spaces(n), false) == Spaces(n) && !EndsOpen(Spaces(n), false)
  {
    PlainIdentity(Spaces(n));
    NoEscapeNotOpen(Spaces(n));
  }

  lemma PieceFilled(cell: string, width: nat)
    ensures Pad(cell, width) + "   " == cell + Spaces(SaturatingSub(width, |cell|) + 3)
  {
    assert Spaces(3) == "   ";
  }

  /** What one padded cell and its gap show: the cell, and nothing but blanks. */
  lemma PieceShows(cell: string, width: nat)
    requires !EndsOpen(cell, false)
    ensures var piece := Pad(cell, width) + "   ";
            && !EndsOpen(piece, false) && Visible(piece) == Shown(cell, width) + 3
            && Plain(piece, false) == Plain(cell, false) + Spaces(SaturatingSub(width, |cell|) + 3)
  {
    var fill := SaturatingSub(width, |cell|) + 3;
    PieceFilled(cell, width);
    PlainSpaces(fill);
    ClosedConcat(cell, Spaces(fill));
  }

  /** What is in front of a cell shows up to the cell's column. */
  lemma {:induction false} FrontShows(cells: seq<string>, widths: seq<nat>, i: nat)
    requires |cells| == |widths| && Closed(cells) && i <= |cells|
    ensures !EndsOpen(Front(cells, widths, i), false) && Visible(Front(cells, widths, i)) == Column(cells, widths, i)
  {
    if i > 0 {
      FrontShows(cells, widths, i - 1);
      PieceShows(cells[i - 1], widths[i - 1]);
      ClosedConcat(Front(cells, widths, i - 1), Pad(cells[i - 1], widths[i - 1]) + "   ");
    }
  }

  /** The column cell `i` is shown in is never past the column it belongs in, and is that
      column exactly when every cell before it pads true. */
  lemma {:induction false} ColumnIff(cells: seq<string>, widths: seq<nat>, i: nat)
    requires CellsFit(cells, widths) && i <= |cells|
    ensures Column(cells, widths, i) <= Offset(widths, i)
    ensures Column(cells, widths, i) == Offset(widths, i) <==> forall j :: 0 <= j < i ==> PadsTrue(cells[j], widths[j])
  {
    if i > 0 {
      ColumnIff(cells, widths, i - 1);
      VisibleAtMostLength(cells[i - 1], false);
    }
  }

  /** The rule ends where the last column does. */
  lemma {:induction false} RuleEndsWithColumns(widths: seq<nat>)
    ensures TotalWidth(widths) == if widths == [] then 0 else Offset(widths, |widths| - 1) + widths[|widths| - 1]
  {
    if widths != [] {
      OffsetSum(widths, |widths| - 1);
      assert widths[..|widths| - 1] + [widths[|widths| - 1]] == widths;
      SumSnoc(widths[..|widths| - 1], widths[|widths| - 1]);
    }
  }

  lemma {:induction false} OffsetSum(widths: seq<nat>, i: nat)
    requires i <= |widths|
    ensures Offset(widths, i) == Sum(widths[..i]) + 3 * i
  {
    if i > 0 {
      OffsetSum(widths, i - 1);
      assert widths[..i] == widths[..i - 1] + [widths[i - 1]];
      SumSnoc(widths[..i - 1], widths[i - 1]);
    }
  }

  lemma {:induction false} SumSnoc(s: seq<nat>, n: nat)
    ensures Sum(s + [n]) == Sum(s) + n
  {
    if s == [] {
      assert s + [n] == [n] && [n][1..] == [];
    } else {
      SumSnoc(s[1..], n);
      assert (s + [n])[1..] == s[1..] + [n];
    }
  }

  ghost predicate Around(cells: seq<string>, widths: seq<nat>, i: nat, front: string, rest: string)
    requires |cells| == |widths| && i <= |cells|
  {
    front == Front(cells, widths, i) && rest == JoinFrom(cells, widths, i)
  }

  /** A line is what is in front of a cell, and what starts there. */
  lemma {:induction false} FrontSplits(cells: seq<string>, widths: seq<nat>, i: nat, front: string, rest: string)
    requires |cells| == |widths| && i < |cells| && Around(cells, widths, i, front, rest)
    ensures Around(cells, widths, 0, "", front + rest)
  {
    if i == 0 {
      NothingBefore(front, rest);
    } else {
      var before, after := PieceBefore(cells, widths, i, front, rest);
      FrontSplits(cells, widths, i - 1, before, after);
    }
  }

  lemma NothingBefore(front: string, rest: string)
    requires front == ""
    ensures front + rest == rest
  {
  }

  /** One cell back, its piece moves from the front to the rest of the line. */
  lemma PieceBefore(cells: seq<string>, widths: seq<nat>, i: nat, front: string, rest: string) returns (before: string, after: string)
    requires |cells| == |widths| && 1 <= i < |cells| && Around(cells, widths, i, front, rest)
    ensures Around(cells, widths, i - 1, before, after) && before + after == front + rest
  {
    var piece := Pad(cells[i - 1], widths[i - 1]) + "   ";
    before, after := Front(cells, widths, i - 1), piece + rest;
    Rebracket(before, piece, rest);
  }

  lemma CellLeads(cells: seq<string>, widths: seq<nat>, i: nat) returns (after: string)
    requires |cells| == |widths| && i < |cells|
    ensures JoinFrom(cells, widths, i) == cells[i] + after
  {
    var line := JoinFrom(cells, widths, i);
    var piece := if i == |cells| - 1 then cells[i] else Pad(cells[i], widths[i]) + "   ";
    assert cells[i] <= piece;
    assert line == piece + JoinFrom(cells, widths, i + 1);
    assert cells[i] <= line;
    after := line[|cells[i]|..];
  }

  /** A cell is seen in its line, whole, in its column. */
  lemma ShownAt(cells: seq<string>, widths: seq<nat>, i: nat)
    requires |cells| == |widths| && Closed(cells) && i < |cells| && Tidy(cells[i])
    ensures StandsAt(Plain(JoinRow(cells, widths), false), Plain(cells[i], false), Column(cells, widths, i))
  {
    var front, cell := Front(cells, widths, i), cells[i];
    FrontSplits(cells, widths, i, front, JoinFrom(cells, widths, i));
    var after := CellLeads(cells, widths, i);
    Rebracket(front, cell, after);
    var rest := TrimKeepsPart(front, cell, after);
    FrontShows(cells, widths, i);
    ClosedConcat(front, cell);
    ClosedConcat(front + cell, rest);
  }

  /** What is seen of a line begins with what is seen in front of a tidy cell. */
  lemma SeenInFront(cells: seq<string>, widths: seq<nat>, i: nat) returns (tail: string)
    requires |cells| == |widths| && Closed(cells) && i < |cells| && Tidy(cells[i])
    ensures Plain(JoinRow(cells, widths), false) == Plain(Front(cells, widths, i), false) + tail
  {
    var front := Front(cells, widths, i);
    FrontSplits(cells, widths, i, front, JoinFrom(cells, widths, i));
    var after := CellLeads(cells, widths, i);
    Rebracket(front, cells[i], after);
    var rest := TrimKeepsPart(front, cells[i], after);
    Rebracket(front, cells[i], rest);
    FrontShows(cells, widths, i);
    ClosedConcat(front, cells[i] + rest);
    tail := Plain(cells[i] + rest, false);
  }

  lemma FrontNext(cells: seq<string>, widths: seq<nat>, i: nat)
    requires |cells| == |widths| && Closed(cells) && i < |cells|
    ensures Plain(Front(cells, widths, i + 1), false)
         == Plain(Front(cells, widths, i), false) + (Plain(cells[i], false) + Spaces(SaturatingSub(widths[i], |cells[i]|) + 3))
  {
    FrontShows(cells, widths, i);
    PieceShows(cells[i], widths[i]);
    ClosedConcat(Front(cells, widths, i), Pad(cells[i], widths[i]) + "   ");
  }

  lemma ColumnNext(cells: seq<string>, widths: seq<nat>, i: nat)
    requires |cells| == |widths| && i < |cells|
    ensures Column(cells, widths, i + 1)
         == Column(cells, widths, i) + Visible(cells[i]) + (SaturatingSub(widths[i], |cells[i]|) + 3)
  {
  }

  /** Between a cell and the next there is nothing but blanks. */
  lemma BetweenCells(cells: seq<string>, widths: seq<nat>, i: nat)
    requires |cells| == |widths| && Closed(cells) && i + 1 < |cells| && Tidy(cells[i + 1])
    ensures BlankBetween(Plain(JoinRow(cells, widths), false), Column(cells, widths, i) + Visible(cells[i]), Column(cells, widths, i + 1))
  {
    var tail := SeenInFront(cells, widths, i + 1);
    FrontShows(cells, widths, i);
    FrontNext(cells, widths, i);
    ColumnNext(cells, widths, i);
    BlankTail(Plain(JoinRow(cells, widths), false), Plain(Front(cells, widths, i), false), Plain(cells[i], false),
              SaturatingSub(widths[i], |cells[i]|) + 3, tail);
  }

  predicate BlankBetween(line: string, from: nat, to: nat) {
    from <= to <= |line| && line[from..to] == Spaces(to - from)
  }

  lemma BlankTail(line: string, front: string, cell: string, n: nat, rest: string)
    requires line == front + (cell + Spaces(n)) + rest
    ensures BlankBetween(line, |front| + |cell|, |front| + |cell| + n)
  {
  }

  // ---------------------------------------------------------------- headers and values

  /** Escape-free text is closed, seen whole, and pads true. */
  lemma EscapeFree(text: string)
    requires ESC !in text
    ensures Plain(text, false) == text && !EndsOpen(text, false)
  {
    PlainIdentity(text);
    NoEscapeNotOpen(text);
  }

  lemma {:induction false} TrimSpaces(text: string, n: nat)
    ensures TrimEnd(text + Spaces(n)) == TrimEnd(text)
  {
    if n == 0 {
      assert text + Spaces(0) == text;
    } else {
      TrimSpaces(text, n - 1);
      assert (text + Spaces(n))[..|text + Spaces(n)| - 1] == text + Spaces(n - 1);
    }
  }

  lemma TrimPadded(header: string, width: nat)
    ensures TrimEnd(Pad(header, width)) == TrimEnd(header)
  {
    if |header| < width {
      TrimSpaces(header, width - |header|);
    }
  }

  lemma PaintShows(style: Style, text: string)
    requires ESC !in text
    ensures Plain(Paint(style, text), false) == text && !EndsOpen(Paint(style, text), false)
    ensures Paint(style, text) == if style.colour then "\U{001B}[2m" + text + "\U{001B}[0m" else text
    ensures |Paint(style, text)| == if style.colour then |text| + 8 else |text|
    ensures Tidy(text) ==> Tidy(Paint(style, text))
  {
    EscapeFree(text);
    if style.colour {
      var on, off := [ESC] + "[2m", [ESC] + "[0m";
      EscapeInvisible(on, '2');
      EscapeInvisible(off, '0');
      ClosedConcat(on, text);
      ClosedConcat(on + text, off);
    }
  }

  /** The cell of an escape-free header: closed, showing the header without white space at its
      end, and eight characters longer than that when painted. */
  lemma HeadCell(style: Style, headers: seq<string>, widths: seq<nat>, j: nat)
    requires |headers| == |widths| && j < |headers| && ESC !in headers[j]
    ensures var cell, text := HeadCells(style, headers, widths)[j], TrimEnd(headers[j]);
            && Plain(cell, false) == text && !EndsOpen(cell, false)
            && |cell| == (if style.colour then |text| + 8 else |text|)
            && (Tidy(headers[j]) ==> text == headers[j] && Tidy(cell))
  {
    TrimPadded(headers[j], widths[j]);
    TrimEndMeaning(headers[j]);
    PaintShows(style, TrimEnd(headers[j]));
  }

  lemma HeadClosed(style: Style, headers: seq<string>, widths: seq<nat>)
    requires |headers| == |widths| && forall j :: 0 <= j < |headers| ==> ESC !in headers[j]
    ensures Closed(HeadCells(style, headers, widths))
  {
    forall j | 0 <= j < |headers|
      ensures !EndsOpen(HeadCells(style, headers, widths)[j], false)
    {
      HeadCell(style, headers, widths, j);
    }
  }

  lemma RowClosed(row: seq<string>, columns: nat)
    requires Closed(row)
    ensures Closed(RowCells(row, columns))
  {
    assert !EndsOpen("", false);
  }

  /** A header is shown above a value, in the lines as they are seen, exactly if what the
      header cells before it show and what the row's cells before it show add up to the same.
      It holds for every table, with colour or without, and for every row whose escapes are
      closed, painted or plain. */
  lemma HeaderAboveValueIff(style: Style, headers: seq<string>, rows: seq<seq<string>>, k: nat, i: nat)
    requires k < |rows| && i < |headers| && i < |rows[k]| && Tidy(headers[i]) && Tidy(rows[k][i])
    requires Closed(rows[k]) && forall j :: 0 <= j < |headers| ==> ESC !in headers[j]
    ensures var widths := Widths(headers, rows);
            var head, row := HeadCells(style, headers, widths), RowCells(rows[k], |headers|);
            && StandsAt(Plain(JoinRow(head, widths), false), headers[i], Column(head, widths, i))
            && StandsAt(Plain(JoinRow(row, widths), false), Plain(rows[k][i], false), Column(row, widths, i))
            && (Visible(Front(head, widths, i)) == Visible(Front(row, widths, i)) <==> Column(head, widths, i) == Column(row, widths, i))
  {
    var widths := Widths(headers, rows);
    HeadClosed(style, headers, widths);
    HeadCell(style, headers, widths, i);
    ShownAt(HeadCells(style, headers, widths), widths, i);
    FrontShows(HeadCells(style, headers, widths), widths, i);
    RowClosed(rows[k], |headers|);
    ShownAt(RowCells(rows[k], |headers|), widths, i);
    FrontShows(RowCells(rows[k], |headers|), widths, i);
  }

  /** What a header cell adds to the column of the next: its width in a plain table, the width
      less the paint in a coloured one, but never less than its text. */
  lemma HeadShows(style: Style, headers: seq<string>, rows: seq<seq<string>>, j: nat)
    requires j < |headers| && ESC !in headers[j]
    ensures var widths, text := Widths(headers, rows), TrimEnd(headers[j]);
            Shown(HeadCells(style, headers, widths)[j], widths[j])
              == if style.colour then Max(|text|, SaturatingSub(widths[j], 8)) else widths[j]
  {
    HeadCell(style, headers, Widths(headers, rows), j);
    ColumnWidthBounds(headers[j], rows, j);
    TrimEndMeaning(headers[j]);
  }

  /** Values without escapes are always shown in the column they belong in. */
  lemma ValuesAlign(headers: seq<string>, rows: seq<seq<string>>, k: nat, i: nat)
    requires k < |rows| && NoNewlines(rows[k]) && i < |headers| && i < |rows[k]| && Tidy(rows[k][i])
    requires forall j :: 0 <= j < |rows[k]| ==> ESC !in rows[k][j]
    ensures var widths := Widths(headers, rows);
            StandsAt(Plain(JoinRow(RowCells(rows[k], |headers|), widths), false), rows[k][i], Offset(widths, i))
  {
    ValueColumn(headers, rows, k, i);
    EscapeFree(rows[k][i]);
    ShownAt(RowCells(rows[k], |headers|), Widths(headers, rows), i);
  }

  lemma ValueColumn(headers: seq<string>, rows: seq<seq<string>>, k: nat, i: nat)
    requires k < |rows| && NoNewlines(rows[k]) && i <= |headers|
    requires forall j :: 0 <= j < |rows[k]| ==> ESC !in rows[k][j]
    ensures var cells := RowCells(rows[k], |headers|);
            Closed(cells) && Column(cells, Widths(headers, rows), i) == Offset(Widths(headers, rows), i)
  {
    var cells := RowCells(rows[k], |headers|);
    RowFits(headers, rows, k);
    forall j | 0 <= j < |cells|
      ensures Visible(cells[j]) == |cells[j]| && !EndsOpen(cells[j], false)
    {
      EscapeFree(cells[j]);
    }
    ColumnIff(cells, Widths(headers, rows), i);
  }

  /** A header is shown in the column it belongs in by every plain table. A coloured one does
      so exactly if every column before it is as wide as its header's text: the eight
      characters of paint count as padding. */
  lemma HeaderAlignedIff(style: Style, headers: seq<string>, rows: seq<seq<string>>, i: nat)
    requires i < |headers| && NoNewlines(headers) && Tidy(headers[i])
    requires forall j :: 0 <= j < |headers| ==> ESC !in headers[j]
    ensures var widths := Widths(headers, rows);
            var cells := HeadCells(style, headers, widths);
            && StandsAt(Plain(JoinRow(cells, widths), false), headers[i], Column(cells, widths, i))
            && (Column(cells, widths, i) == Offset(widths, i)
                <==> !style.colour || forall j :: 0 <= j < i ==> widths[j] == |TrimEnd(headers[j])|)
  {
    var widths := Widths(headers, rows);
    var cells := HeadCells(style, headers, widths);
    HeadFits(style, headers, rows);
    HeadClosed(style, headers, widths);
    HeadCell(style, headers, widths, i);
    ShownAt(cells, widths, i);
    ColumnIff(cells, widths, i);
    forall j | 0 <= j < |headers|
      ensures PadsTrue(cells[j], widths[j]) <==> !style.colour || widths[j] == |TrimEnd(headers[j])|
    {
      HeadCell(style, headers, widths, j);
    }
  }

  /** Over values without escapes the two agree: a header is above its values in every plain
      table, and in a coloured one exactly if every column before it is as wide as its
      header's text. */
  lemma HeaderAbovePlainValuesIff(style: Style, headers: seq<string>, rows: seq<seq<string>>, k: nat, i: nat)
    requires k < |rows| && i < |headers| && Tidy(headers[i]) && NoNewlines(headers) && NoNewlines(rows[k])
    requires forall j :: 0 <= j < |headers| ==> ESC !in headers[j]
    requires forall j :: 0 <= j < |rows[k]| ==> ESC !in rows[k][j]
    ensures var widths := Widths(headers, rows);
            var same := Column(HeadCells(style, headers, widths), widths, i) == Column(RowCells(rows[k], |headers|), widths, i);
            same <==> !style.colour || forall j :: 0 <= j < i ==> widths[j] == |TrimEnd(headers[j])|
  {
    HeaderAlignedIff(style, headers, rows, i);
    ValueColumn(headers, rows, k, i);
  }

  /** Over painted values it takes more: no value is wider than its header here, and still the
      second header starts two columns to the right of its value. */
  lemma PaintedRowMisaligned(row: seq<string>)
    requires row == [[ESC, '[', '1', 'm'] + "ab" + [ESC, '[', '0', 'm'], "3081"]
    ensures var headers, style := ["NAME", "PORT"], Style(true, true);
            var widths := Widths(headers, [row]);
            && widths[0] == |TrimEnd(headers[0])|
            && Column(HeadCells(style, headers, widths), widths, 1) == 7
            && Column(RowCells(row, 2), widths, 1) == 5
  {
    var headers, style := ["NAME", "PORT"], Style(true, true);
    var widths := Widths(headers, [row]);
    PaintedAb(row[0]);
    OneRowWidth("NAME", row, 0);
    HeadCell(style, headers, widths, 0);
    assert Column(HeadCells(style, headers, widths), widths, 0) == 0 == Column(RowCells(row, 2), widths, 0);
  }

  lemma PaintedAb(cell: string)
    requires cell == [ESC, '[', '1', 'm'] + "ab" + [ESC, '[', '0', 'm']
    ensures Visible(cell) == 2 && |cell| == 10
  {
    var on, off := [ESC, '[', '1', 'm'], [ESC, '[', '0', 'm'];
    EscapeInvisible(on, '1');
    EscapeInvisible(off, '0');
    EscapeFree("ab");
    ClosedConcat(on, "ab");
    ClosedConcat(on + "ab", off);
  }

  /** The width of a column of one value. */
  lemma OneRowWidth(header: string, row: seq<string>, i: nat)
    ensures ColumnWidth(header, [row], i) == Max(|header|, CellWidth(row, i))
  {
    assert [row][..0] == [];
    assert ColumnWidth(header, [row], i) == Max(ColumnWidth(header, [], i), CellWidth(row, i));
  }
}
