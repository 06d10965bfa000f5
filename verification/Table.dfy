/** Rendering a table: columns capped to given widths, and caps chosen so that the table fits
    the terminal. Widths are counts of visible characters. */
module Table {
  import opened Text
  import opened Numbers
  import opened Terminal

  datatype Style = Style(colour: bool, unicode: bool)

  /** Text in the dim ink, or plain when colour is off. */
  function Paint(style: Style, text: string): string {
    if style.colour then [ESC] + "[2m" + text + ([ESC] + "[0m") else text
  }

  function RuleGlyph(style: Style): char {
    if style.unicode then '\U{2500}' else '-'
  }

  function RuleLine(style: Style, width: nat): string {
    Paint(style, seq(width, i => RuleGlyph(style)))
  }

  // ---------------------------------------------------------------- capped tables

  /** A cell cut to its column's cap; a cap of 0 is no cap. */
  function CapCell(cell: string, caps: seq<nat>, i: nat): string {
    if i < |caps| && caps[i] > 0 && |Plain(cell, false)| > caps[i]
    then Truncate(Plain(cell, false), caps[i]) else cell
  }

  function CapRow(row: seq<string>, caps: seq<nat>): (r: seq<string>)
    ensures |r| == |row|
  {
    seq(|row|, i requires 0 <= i < |row| => CapCell(row[i], caps, i))
  }

  function CapRows(rows: seq<seq<string>>, caps: seq<nat>): (r: seq<seq<string>>)
    ensures |r| == |rows|
  {
    seq(|rows|, i requires 0 <= i < |rows| => CapRow(rows[i], caps))
  }

  /** What a row needs of a column. */
  function CellWidth(row: seq<string>, i: nat): nat {
    if i < |row| then Visible(row[i]) else 0
  }

  /** The wider of the header and the widest cell. */
  function ColumnWidth(header: string, rows: seq<seq<string>>, i: nat): nat {
    if rows == [] then |header|
    else Max(ColumnWidth(header, rows[..|rows| - 1], i), CellWidth(rows[|rows| - 1], i))
  }

  function Widths(headers: seq<string>, rows: seq<seq<string>>): (w: seq<nat>)
    ensures |w| == |headers|
  {
    seq(|headers|, i requires 0 <= i < |headers| => ColumnWidth(headers[i], rows, i))
  }

  function Sum(s: seq<nat>): nat {
    if s == [] then 0 else s[0] + Sum(s[1..])
  }

  function Gaps(columns: nat): nat {
    if columns == 0 then 0 else (columns - 1) * 3
  }

  function TotalWidth(widths: seq<nat>): nat {
    Sum(widths) + Gaps(|widths|)
  }

  /** A row from its i-th cell on: every cell but the last is padded and followed by a gap. */
  function JoinFrom(cells: seq<string>, widths: seq<nat>, i: nat): string
    requires |cells| == |widths| && i <= |cells|
    decreases |cells| - i
  {
    if i == |cells| then ""
    else (if i == |cells| - 1 then cells[i] else Pad(cells[i], widths[i]) + "   ") + JoinFrom(cells, widths, i + 1)
  }

  function JoinRow(cells: seq<string>, widths: seq<nat>): string
    requires |cells| == |widths|
  {
    TrimEnd(JoinFrom(cells, widths, 0))
  }

  function HeadCells(style: Style, headers: seq<string>, widths: seq<nat>): (r: seq<string>)
    requires |headers| == |widths|
    ensures |r| == |headers|
  {
    seq(|headers|, i requires 0 <= i < |headers| => Paint(style, TrimEnd(Pad(headers[i], widths[i]))))
  }

  function RowCells(row: seq<string>, columns: nat): (r: seq<string>)
    ensures |r| == columns
  {
    seq(columns, i requires 0 <= i => if i < |row| then row[i] else "")
  }

  function RowsText(rows: seq<seq<string>>, widths: seq<nat>): string {
    if rows == [] then "" else JoinRow(RowCells(rows[0], |widths|), widths) + ['\n'] + RowsText(rows[1..], widths)
  }

  function TableText(style: Style, headers: seq<string>, rows: seq<seq<string>>, caps: seq<nat>): string {
    if rows == [] then ""
    else
      var capped := CapRows(rows, caps);
      var widths := Widths(headers, capped);
      TrimEnd(JoinRow(HeadCells(style, headers, widths), widths) + ['\n']
              + (RuleLine(style, TotalWidth(widths)) + ['\n'] + RowsText(capped, widths)))
  }

  method MeasureWidths(headers: seq<string>, rows: seq<seq<string>>) returns (widths: seq<nat>)
    ensures widths == Widths(headers, rows)
  {
    var columns := |headers|;
    widths := seq(columns, i requires 0 <= i < columns => |headers[i]|);
    var k := 0;
    while k < |rows|
      invariant k <= |rows|
      invariant widths == Widths(headers, rows[..k])
    {
      var row := rows[k];
      ghost var before := widths;
      var i := 0;
      while i < Min(|row|, columns)
        invariant i <= Min(|row|, columns)
        invariant |widths| == columns
        invariant forall j :: 0 <= j < i ==> widths[j] == Max(before[j], Visible(row[j]))
        invariant forall j :: i <= j < columns ==> widths[j] == before[j]
      {
        var visible := VisibleWidth(row[i]);
        if visible > widths[i] {
          widths := widths[i := visible];
        }
        i := i + 1;
      }
      assert rows[..k + 1][..k] == rows[..k];
      k := k + 1;
    }
    assert rows[..k] == rows;
  }

  method AppendRows(start: string, rows: seq<seq<string>>, widths: seq<nat>) returns (out: string)
    ensures out == start + RowsText(rows, widths)
  {
    out := start;
    var k := 0;
    while k < |rows|
      invariant k <= |rows|
      invariant out + RowsText(rows[k..], widths) == start + RowsText(rows, widths)
    {
      var line := JoinRow(RowCells(rows[k], |widths|), widths);
      OneRow(out, line, rows[k..], widths);
      assert rows[k..][1..] == rows[k + 1..];
      out := out + line;
      out := out + ['\n'];
      k := k + 1;
    }
  }

  lemma OneRow(out: string, line: string, rows: seq<seq<string>>, widths: seq<nat>)
    requires rows != [] && line == JoinRow(RowCells(rows[0], |widths|), widths)
    ensures out + RowsText(rows, widths) == out + line + ['\n'] + RowsText(rows[1..], widths)
  {
  }

  method TableCapped(style: Style, headers: seq<string>, rows: seq<seq<string>>, caps: seq<nat>) returns (out: string)
    ensures out == TableText(style, headers, rows, caps)
  {
    if rows == [] {
      return "";
    }
    var capped := CapRows(rows, caps);
    var widths := MeasureWidths(headers, capped);
    var head := JoinRow(HeadCells(style, headers, widths), widths);
    var rule := RuleLine(style, TotalWidth(widths));
    out := head + ['\n'];
    out := out + rule;
    out := out + ['\n'];
    out := AppendRows(out, capped, widths);
    HeadRuleRows(head, rule, RowsText(capped, widths));
    out := TrimEnd(out);
  }

  lemma HeadRuleRows(head: string, rule: string, rows: string)
    ensures head + ['\n'] + rule + ['\n'] + rows == head + ['\n'] + (rule + ['\n'] + rows)
  {
  }

  // ---------------------------------------------------------------- how wide a table is

  lemma {:induction false} ColumnWidthBounds(header: string, rows: seq<seq<string>>, i: nat)
    ensures ColumnWidth(header, rows, i) >= |header|
    ensures forall k :: 0 <= k < |rows| ==> CellWidth(rows[k], i) <= ColumnWidth(header, rows, i)
    ensures ColumnWidth(header, rows, i) == |header|
      || exists k :: 0 <= k < |rows| && CellWidth(rows[k], i) == ColumnWidth(header, rows, i)
  {
    if rows != [] {
      ColumnWidthBounds(header, rows[..|rows| - 1], i);
    }
  }

  lemma CappedCellWidth(cell: string, caps: seq<nat>, i: nat)
    ensures Visible(CapCell(cell, caps, i)) ==
      if i < |caps| && caps[i] > 0 then Min(Visible(cell), caps[i]) else Visible(cell)
    ensures '\n' !in cell ==> '\n' !in CapCell(cell, caps, i)
  {
    PlainHasNoEscape(cell, false);
    PlainKeepsOut(cell, false);
    if i < |caps| && caps[i] > 0 && |Plain(cell, false)| > caps[i] {
      VisibleTruncate(Plain(cell, false), caps[i]);
    }
  }

  lemma {:induction false} PlainKeepsOut(text: string, open: bool)
    ensures '\n' !in text ==> '\n' !in Plain(text, open)
  {
    if text != [] {
      PlainKeepsOut(text[1..], if open then text[0] != 'm' else text[0] == ESC);
    }
  }

  /** A column capped between its header and its need takes exactly its cap. */
  lemma {:induction false} CappedColumnWidth(header: string, rows: seq<seq<string>>, caps: seq<nat>, i: nat)
    requires i < |caps| && (caps[i] > 0 ==> |header| <= caps[i])
    ensures ColumnWidth(header, CapRows(rows, caps), i) ==
      if caps[i] > 0 then Min(ColumnWidth(header, rows, i), caps[i]) else ColumnWidth(header, rows, i)
  {
    if rows != [] {
      var front, row := rows[..|rows| - 1], rows[|rows| - 1];
      assert CapRows(rows, caps)[..|rows| - 1] == CapRows(front, caps);
      CappedColumnWidth(header, front, caps, i);
      if i < |row| {
        CappedCellWidth(row[i], caps, i);
      }
    }
  }

  lemma VisiblePaint(style: Style, text: string)
    ensures Visible(Paint(style, text)) <= Visible(text)
    ensures ESC !in text ==> Visible(Paint(style, text)) == |text|
    ensures '\n' !in text ==> '\n' !in Paint(style, text)
  {
    if style.colour {
      var on, off := [ESC] + "[2m", [ESC] + "[0m";
      EscapeInvisible(on, '2');
      EscapeInvisible(off, '0');
      VisibleConcat(on, text);
      VisibleConcat(on + text, off);
      if ESC !in text {
        PlainIdentity(text);
        NoEscapeNotOpen(text);
        PlainConcat(on, text, false);
        PlainConcat(on + text, off, false);
      }
    } else if ESC !in text {
      PlainIdentity(text);
    }
  }

  lemma {:induction false} NoEscapeNotOpen(text: string)
    requires ESC !in text
    ensures !EndsOpen(text, false)
  {
    if text != [] {
      NoEscapeNotOpen(text[1..]);
    }
  }

  lemma EscapeInvisible(code: string, digit: char)
    requires code == [ESC, '[', digit, 'm'] && digit != 'm'
    ensures Plain(code, false) == "" && !EndsOpen(code, false)
  {
    assert code[1..] == ['[', digit, 'm'] && code[1..][1..] == [digit, 'm'] && code[1..][1..][1..] == ['m'];
    assert code[1..][1..][1..][1..] == [];
    assert Plain(['m'], true) == "" && !EndsOpen(['m'], true);
    assert Plain([digit, 'm'], true) == "" && !EndsOpen([digit, 'm'], true);
  }

  predicate NoNewlines(cells: seq<string>) {
    forall i :: 0 <= i < |cells| ==> '\n' !in cells[i]
  }

  /** Cells that fit their columns. */
  ghost predicate CellsFit(cells: seq<string>, widths: seq<nat>) {
    |cells| == |widths| && forall i :: 0 <= i < |cells| ==> Visible(cells[i]) <= widths[i]
  }

  /** One padded cell and its gap. */
  lemma PieceWidth(cell: string, width: nat, rest: string)
    requires Visible(cell) <= width && '\n' !in cell && '\n' !in rest
    ensures Visible(Pad(cell, width) + "   " + rest) <= width + 3 + Visible(rest)
    ensures '\n' !in Pad(cell, width) + "   " + rest
  {
    VisiblePad(cell, width);
    VisibleConcat(Pad(cell, width), "   ");
    VisibleAtMostLength("   ", false);
    VisibleConcat(Pad(cell, width) + "   ", rest);
  }

  lemma {:induction false} JoinFromWidth(cells: seq<string>, widths: seq<nat>, i: nat)
    requires CellsFit(cells, widths) && NoNewlines(cells) && i <= |cells|
    ensures Visible(JoinFrom(cells, widths, i)) <= Sum(widths[i..]) + Gaps(|cells| - i)
    ensures '\n' !in JoinFrom(cells, widths, i)
    decreases |cells| - i
  {
    if i < |cells| {
      JoinFromWidth(cells, widths, i + 1);
      assert widths[i..][1..] == widths[i + 1..];
      var rest := JoinFrom(cells, widths, i + 1);
      if i == |cells| - 1 {
        assert rest == "" && cells[i] + rest == cells[i];
      } else {
        PieceWidth(cells[i], widths[i], rest);
      }
    }
  }

  lemma JoinRowWidth(cells: seq<string>, widths: seq<nat>)
    requires CellsFit(cells, widths) && NoNewlines(cells)
    ensures Visible(JoinRow(cells, widths)) <= TotalWidth(widths)
    ensures '\n' !in JoinRow(cells, widths)
  {
    JoinFromWidth(cells, widths, 0);
    assert widths[0..] == widths;
    TrimEndMeaning(JoinFrom(cells, widths, 0));
    VisiblePrefix(JoinRow(cells, widths), JoinFrom(cells, widths, 0));
  }

  lemma RuleLineWidth(style: Style, width: nat)
    ensures Visible(RuleLine(style, width)) == width
    ensures '\n' !in RuleLine(style, width)
  {
    VisiblePaint(style, seq(width, i => RuleGlyph(style)));
  }

  lemma HeadFits(style: Style, headers: seq<string>, rows: seq<seq<string>>)
    requires NoNewlines(headers)
    ensures CellsFit(HeadCells(style, headers, Widths(headers, rows)), Widths(headers, rows))
    ensures NoNewlines(HeadCells(style, headers, Widths(headers, rows)))
  {
    var widths := Widths(headers, rows);
    forall i | 0 <= i < |headers|
      ensures Visible(HeadCells(style, headers, widths)[i]) <= widths[i]
      ensures '\n' !in HeadCells(style, headers, widths)[i]
    {
      ColumnWidthBounds(headers[i], rows, i);
      VisibleAtMostLength(headers[i], false);
      var padded := Pad(headers[i], widths[i]);
      VisiblePad(headers[i], widths[i]);
      TrimEndMeaning(padded);
      VisiblePrefix(TrimEnd(padded), padded);
      VisiblePaint(style, TrimEnd(padded));
    }
  }

  lemma RowFits(headers: seq<string>, rows: seq<seq<string>>, k: nat)
    requires k < |rows| && NoNewlines(rows[k])
    ensures CellsFit(RowCells(rows[k], |headers|), Widths(headers, rows))
    ensures NoNewlines(RowCells(rows[k], |headers|))
  {
    forall i | 0 <= i < |headers|
      ensures Visible(RowCells(rows[k], |headers|)[i]) <= Widths(headers, rows)[i]
    {
      ColumnWidthBounds(headers[i], rows, i);
      assert CellWidth(rows[k], i) == Visible(RowCells(rows[k], |headers|)[i]);
    }
  }

  lemma {:induction false} RowsTextFit(headers: seq<string>, rows: seq<seq<string>>, k: nat)
    requires k <= |rows| && forall j :: 0 <= j < |rows| ==> NoNewlines(rows[j])
    ensures LinesFit(RowsText(rows[k..], Widths(headers, rows)), TotalWidth(Widths(headers, rows)))
    decreases |rows| - k
  {
    var widths := Widths(headers, rows);
    if k == |rows| {
      LineAlone("", TotalWidth(widths));
    } else {
      RowsTextFit(headers, rows, k + 1);
      RowFits(headers, rows, k);
      JoinRowWidth(RowCells(rows[k], |headers|), widths);
      assert rows[k..][1..] == rows[k + 1..];
      LinesCons(JoinRow(RowCells(rows[k], |headers|), widths), RowsText(rows[k + 1..], widths), TotalWidth(widths));
    }
  }

  lemma CapRowsNoNewlines(rows: seq<seq<string>>, caps: seq<nat>)
    requires forall j :: 0 <= j < |rows| ==> NoNewlines(rows[j])
    ensures forall j :: 0 <= j < |rows| ==> NoNewlines(CapRows(rows, caps)[j])
  {
    forall j, i | 0 <= j < |rows| && 0 <= i < |rows[j]|
      ensures '\n' !in CapRows(rows, caps)[j][i]
    {
      assert '\n' !in rows[j][i];
      CappedCellWidth(rows[j][i], caps, i);
    }
  }

  /** No line of a table is wider than its rule, which is exactly as wide as its columns and
      the gaps between them, with colour or without. */
  lemma TableAsWideAsRule(style: Style, headers: seq<string>, rows: seq<seq<string>>, caps: seq<nat>)
    requires NoNewlines(headers) && forall j :: 0 <= j < |rows| ==> NoNewlines(rows[j])
    ensures LinesFit(TableText(style, headers, rows, caps), TotalWidth(Widths(headers, CapRows(rows, caps))))
  {
    var capped := CapRows(rows, caps);
    var widths := Widths(headers, capped);
    var width := TotalWidth(widths);
    if rows == [] {
      LineAlone("", width);
    } else {
      CapRowsNoNewlines(rows, caps);
      RowsTextFit(headers, capped, 0);
      assert capped[0..] == capped;
      RuleLineWidth(style, width);
      HeadFits(style, headers, capped);
      JoinRowWidth(HeadCells(style, headers, widths), widths);
      var rows' := RowsText(capped, widths);
      var rule := RuleLine(style, width);
      var head := JoinRow(HeadCells(style, headers, widths), widths);
      LinesCons(rule, rows', width);
      LinesCons(head, rule + ['\n'] + rows', width);
      var whole := head + ['\n'] + (rule + ['\n'] + rows');
      TrimEndMeaning(whole);
      LinesPrefix(TrimEnd(whole), whole, width);
    }
  }

  lemma TrimSecondLine(head: string, line: string, after: string) returns (rest: string)
    requires Tidy(line) && (after == "" || after[0] == '\n')
    ensures TrimEnd(head + ['\n'] + (line + after)) == head + ['\n'] + (line + rest)
    ensures rest == "" || rest[0] == '\n'
  {
    var front := head + ['\n'];
    Rebracket(front, line, after);
    rest := TrimKeepsPart(front, line, after);
    Rebracket(front, line, rest);
  }

  /** Of a text cut to lines: a tidy line after the first keeps its place when the end of the
      text is trimmed. */
  lemma SecondLine(head: string, line: string, after: string)
    requires '\n' !in head && '\n' !in line && Tidy(line) && (after == "" || after[0] == '\n')
    ensures line in Split(TrimEnd(head + ['\n'] + (line + after)), '\n')
  {
    var rest := TrimSecondLine(head, line, after);
    SplitCons(head, line + rest, '\n');
    LeadsSplit(line, rest);
    SecondOfSplit([head], Split(line + rest, '\n'), line);
  }

  lemma SecondOfSplit(first: seq<string>, others: seq<string>, line: string)
    requires others != [] && others[0] == line
    ensures line in first + others
  {
    assert (first + others)[|first|] == line;
  }

  lemma LeadsSplit(line: string, rest: string)
    requires '\n' !in line && (rest == "" || rest[0] == '\n')
    ensures Split(line + rest, '\n')[0] == line
  {
    if rest == "" {
      assert line + rest == line;
      SplitSingle(line, '\n');
    } else {
      assert rest == ['\n'] + rest[1..];
      Rebracket(line, ['\n'], rest[1..]);
      SplitCons(line, rest[1..], '\n');
    }
  }

  lemma RuleTidy(style: Style, width: nat)
    requires width > 0
    ensures Tidy(RuleLine(style, width))
  {
    var glyphs := seq(width, i => RuleGlyph(style));
    assert glyphs[width - 1] == RuleGlyph(style);
  }

  /** The rule is one of the lines that are printed. */
  lemma RuleIsALine(style: Style, headers: seq<string>, rows: seq<seq<string>>, caps: seq<nat>)
    requires rows != [] && NoNewlines(headers) && TotalWidth(Widths(headers, CapRows(rows, caps))) > 0
    ensures RuleLine(style, TotalWidth(Widths(headers, CapRows(rows, caps)))) in Split(TableText(style, headers, rows, caps), '\n')
  {
    var capped := CapRows(rows, caps);
    var widths := Widths(headers, capped);
    var rule := RuleLine(style, TotalWidth(widths));
    HeadFits(style, headers, capped);
    JoinRowWidth(HeadCells(style, headers, widths), widths);
    RuleLineWidth(style, TotalWidth(widths));
    RuleTidy(style, TotalWidth(widths));
    var after := ['\n'] + RowsText(capped, widths);
    assert rule + ['\n'] + RowsText(capped, widths) == rule + after;
    SecondLine(JoinRow(HeadCells(style, headers, widths), widths), rule, after);
  }

  /** A table with rows is within a width, as printed, exactly if its columns and gaps are; one
      without rows prints nothing. */
  lemma PrintedWithinIff(style: Style, headers: seq<string>, rows: seq<seq<string>>, caps: seq<nat>, width: nat)
    requires NoNewlines(headers) && forall j :: 0 <= j < |rows| ==> NoNewlines(rows[j])
    ensures LinesFit(TableText(style, headers, rows, caps), width)
      <==> rows == [] || TotalWidth(Widths(headers, CapRows(rows, caps))) <= width
  {
    var total := TotalWidth(Widths(headers, CapRows(rows, caps)));
    if rows == [] {
      LineAlone("", width);
    } else if total <= width {
      TableAsWideAsRule(style, headers, rows, caps);
    } else {
      RuleIsALine(style, headers, rows, caps);
      RuleLineWidth(style, total);
    }
  }
}
