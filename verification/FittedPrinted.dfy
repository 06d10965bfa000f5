/** What a fitted table shows of each cell. */
module FittedPrinted {
  import opened Text
  import opened Numbers
  import opened Terminal
  import opened Table
  import opened Alignment
  import opened Printed
  import opened Fitting
  import opened FittingProperties

  /** A column gives nothing up: there is no width to fit to, or the table fits as it is, or
      the column is not flexible. */
  predicate Unshrunk(headers: seq<string>, rows: seq<seq<string>>, flex: seq<Flex>, terminal: Option<nat>, i: nat) {
    terminal.None? || TotalWidth(Widths(headers, rows)) <= terminal.value || !IsFlexible(flex, i)
  }

  /** The cap of a column is no cap, or at least its need if it gives nothing up, and at least
      its header if it does. */
  lemma CapAtLeast(headers: seq<string>, rows: seq<seq<string>>, flex: seq<Flex>, terminal: Option<nat>, i: nat)
    requires DistinctFlex(flex) && i < |headers|
    ensures var cap := CapOf(CapsFor(headers, rows, flex, terminal), i);
      cap > 0 ==> cap >= if Unshrunk(headers, rows, flex, terminal, i) then Widths(headers, rows)[i] else |headers[i]|
  {
    var floor, natural := Floors(headers), Widths(headers, rows);
    if terminal.Some? && TotalWidth(natural) > terminal.value {
      ColumnCap(floor, natural, flex, terminal.value, i);
    }
  }

  lemma SeenWhole(cell: string, cap: nat)
    requires cap == 0 || Visible(cell) <= cap
    ensures Seen(cell, cap) == Plain(cell, false)
  {
  }

  /** Every row of a fitted table is printed, and every tidy cell of it is shown in its column:
      whole if its column gives nothing up, otherwise to its column's cap. A cell is cut to no
      less than the width of the header. */
  lemma FittedCellPrinted(style: Style, headers: seq<string>, rows: seq<seq<string>>, flex: seq<Flex>, terminal: Option<nat>, k: nat, i: nat)
    requires NoNewlines(headers) && forall j :: 0 <= j < |rows| ==> NoNewlines(rows[j])
    requires DistinctFlex(flex) && k < |rows| && i < |headers| && i < |rows[k]|
    requires Closed(rows[k]) && Tidy(rows[k][i]) && Visible(rows[k][i]) > 0
    ensures var lines, caps := Split(FittedText(style, headers, rows, flex, terminal), '\n'), CapsFor(headers, rows, flex, terminal);
      var text := Seen(rows[k][i], CapOf(caps, i));
      && 2 + k < |lines|
      && StandsAt(Plain(lines[2 + k], false), text, ColumnOf(headers, rows, caps, k, i))
      && (Unshrunk(headers, rows, flex, terminal, i) ==> text == Plain(rows[k][i], false))
      && |text| >= Min(Visible(rows[k][i]), |headers[i]|)
  {
    var caps := CapsFor(headers, rows, flex, terminal);
    CellPrinted(style, headers, rows, caps, k, i);
    CapAtLeast(headers, rows, flex, terminal, i);
    ColumnWidthBounds(headers[i], rows, i);
    assert CellWidth(rows[k], i) == Visible(rows[k][i]);
    if Unshrunk(headers, rows, flex, terminal, i) {
      SeenWhole(rows[k][i], CapOf(caps, i));
    }
  }

  /** The header line of a fitted table shows every header whole, in its column. */
  lemma FittedHeadPrinted(style: Style, headers: seq<string>, rows: seq<seq<string>>, flex: seq<Flex>, terminal: Option<nat>, i: nat)
    requires NoNewlines(headers) && forall j :: 0 <= j < |rows| ==> NoNewlines(rows[j])
    requires rows != [] && i < |headers| && Tidy(headers[i]) && forall j :: 0 <= j < |headers| ==> ESC !in headers[j]
    ensures var lines := Split(FittedText(style, headers, rows, flex, terminal), '\n');
      var widths := Widths(headers, CapRows(rows, CapsFor(headers, rows, flex, terminal)));
      StandsAt(Plain(lines[0], false), headers[i], Column(HeadCells(style, headers, widths), widths, i))
  {
    HeadPrinted(style, headers, rows, CapsFor(headers, rows, flex, terminal), i);
  }
}
