/** Choices of flexible columns that break the promise of `table_fitted`: for each, a table
    whose sure width fits the terminal and which still prints a line that does not. */
module FittingFailures {
  import opened Text
  import opened Numbers
  import opened Terminal
  import opened Table
  import opened Fitting
  import opened FittingProperties

  lemma OneColumn(widths: seq<nat>)
    requires |widths| == 1
    ensures Sum(widths) == TotalWidth(widths) == widths[0]
  {
    assert widths[1..] == [];
  }

  /** A cap of 0: a table of one such column prints a line wider than a terminal its header
      fits, as soon as its content does not fit. */
  lemma ZeroCapOverflows(style: Style, headers: seq<string>, rows: seq<seq<string>>, flex: seq<Flex>, terminal: nat)
    requires |headers| == 1 && flex == [Flex(0, 0)]
    requires NoNewlines(headers) && forall j :: 0 <= j < |rows| ==> NoNewlines(rows[j])
    requires |headers[0]| <= terminal < ColumnWidth(headers[0], rows, 0)
    ensures SureWidth(headers, rows, flex) <= terminal && !LinesFit(FittedText(style, headers, rows, flex, Some(terminal)), terminal)
  {
    ZeroCapTooWide(headers, rows, flex, terminal);
    TooWide(style, headers, rows, flex, terminal);
  }

  lemma ZeroCapTooWide(headers: seq<string>, rows: seq<seq<string>>, flex: seq<Flex>, terminal: nat)
    requires |headers| == 1 && flex == [Flex(0, 0)]
    requires |headers[0]| <= terminal < ColumnWidth(headers[0], rows, 0)
    ensures rows != [] && DistinctFlex(flex) && SureWidth(headers, rows, flex) <= terminal
    ensures !FitsTerminal(headers, rows, flex, terminal)
  {
    var floor, natural := Floors(headers), Widths(headers, rows);
    assert flex[0].index == 0 && IsFlexible(flex, 0) && Uncapped(flex, 0);
    assert Contenders(floor, natural, flex) == Contenders(floor, natural, flex[1..]) == [];
    OneColumn(Reserved(floor, natural, flex));
    OneColumn(ZeroExtra(floor, natural, flex));
  }

  lemma TooWide(style: Style, headers: seq<string>, rows: seq<seq<string>>, flex: seq<Flex>, terminal: nat)
    requires rows != [] && NoNewlines(headers) && forall j :: 0 <= j < |rows| ==> NoNewlines(rows[j])
    requires DistinctFlex(flex) && !FitsTerminal(headers, rows, flex, terminal)
    ensures !LinesFit(FittedText(style, headers, rows, flex, Some(terminal)), terminal)
  {
    NeverWiderIff(style, headers, rows, flex, terminal);
  }

  /** What the recursive sums come to over two contenders. */
  lemma TwoContenders(a: Contender, b: Contender, even: nat)
    ensures TotalWant([a, b]) == a.want + b.want && Pool([a, b], even) == Weight(a, even) + Weight(b, even)
  {
    assert [a, b][1..] == [b] && [b][1..] == [];
    assert TotalWant([b]) == b.want && Pool([b], even) == Weight(b, even);
  }

  lemma TwoHold(a: Contender, b: Contender, caps: seq<nat>)
    requires a.index < |caps| && b.index < |caps|
    ensures Held([a, b], caps) == caps[a.index] + caps[b.index]
  {
    assert [a, b][1..] == [b] && [b][1..] == [];
    assert Held([b], caps) == caps[b.index];
  }

  lemma TwoRanked(a: Contender, b: Contender)
    requires a.want >= b.want
    ensures SortByWant([a, b]) == [a, b]
  {
    assert [a, b][1..] == [b] && [b][1..] == [];
    assert SortByWant([b]) == InsertByWant(b, []) == [b];
  }

  lemma TwoCompete(floor: seq<nat>, natural: seq<nat>, f: Flex, g: Flex, a: Contender, b: Contender)
    requires |floor| == |natural| && f.cap > 0 && g.cap > 0 && f.index < |natural| && g.index < |natural|
    requires natural[f.index] > 0 && natural[g.index] > 0
    requires a == Contender(f.index, Min(natural[f.index], SaturatingAdd(floor[f.index], f.cap, 0, USIZE_MAX)))
    requires b == Contender(g.index, Min(natural[g.index], SaturatingAdd(floor[g.index], g.cap, 0, USIZE_MAX)))
    ensures Contenders(floor, natural, [f, g]) == [a, b]
  {
    assert [f, g][1..] == [g] && [g][1..] == [];
    assert Contenders(floor, natural, [g]) == [b];
  }

  lemma TwoShares(a: Contender, b: Contender, floor: seq<nat>, budget: nat)
    requires a.index < |floor| && b.index < |floor|
    ensures Shares([a, b], floor, budget, 2)
         == seq(|floor|, i => 0)[a.index := Share([a, b], floor, budget, 0)][b.index := Share([a, b], floor, budget, 1)]
  {
    var cs := [a, b];
    assert Shares(cs, floor, budget, 0) == seq(|floor|, i => 0);
    assert Shares(cs, floor, budget, 1) == seq(|floor|, i => 0)[cs[0].index := Share(cs, floor, budget, 0)];
  }

  /** A table with a column without a header that goes empty prints a line too wide. */
  lemma StarvedOverflows(style: Style, headers: seq<string>, rows: seq<seq<string>>, flex: seq<Flex>, terminal: nat)
    requires rows != [] && NoNewlines(headers) && forall j :: 0 <= j < |rows| ==> NoNewlines(rows[j])
    requires DistinctFlex(flex) && Starves(Floors(headers), Widths(headers, rows), flex, terminal)
    ensures !LinesFit(FittedText(style, headers, rows, flex, Some(terminal)), terminal)
  {
    StarvedSpendsAll(Floors(headers), Widths(headers, rows), flex, terminal);
    TooWide(style, headers, rows, flex, terminal);
  }

  /** No header: of two such columns with one character between them the second goes empty and
      is printed in full. */
  lemma EmptyHeaderOverflows(style: Style, headers: seq<string>, rows: seq<seq<string>>, flex: seq<Flex>)
    requires headers == ["", ""] && flex == [Flex(0, 1), Flex(1, 1)]
    requires rows != [] && forall j :: 0 <= j < |rows| ==> NoNewlines(rows[j])
    requires ColumnWidth("", rows, 0) > 0 && ColumnWidth("", rows, 1) > 0
    ensures SureWidth(headers, rows, flex) <= 4 && !LinesFit(FittedText(style, headers, rows, flex, Some(4)), 4)
  {
    EmptyHeaderStarves(headers, rows, flex);
    StarvedOverflows(style, headers, rows, flex, 4);
  }

  lemma EmptyHeaderStarves(headers: seq<string>, rows: seq<seq<string>>, flex: seq<Flex>)
    requires headers == ["", ""] && flex == [Flex(0, 1), Flex(1, 1)]
    requires ColumnWidth("", rows, 0) > 0 && ColumnWidth("", rows, 1) > 0
    ensures NoNewlines(headers) && DistinctFlex(flex)
    ensures SureWidth(headers, rows, flex) == 3 && Starves(Floors(headers), Widths(headers, rows), flex, 4)
  {
    assert Floors(headers) == [0, 0];
    EmptyHeadersStarve(Floors(headers), Widths(headers, rows), flex);
  }

  lemma EmptyHeadersStarve(floor: seq<nat>, natural: seq<nat>, flex: seq<Flex>)
    requires floor == [0, 0] && |natural| == 2 && natural[0] > 0 && natural[1] > 0 && flex == [Flex(0, 1), Flex(1, 1)]
    ensures Starves(floor, natural, flex, 4) && Sum(Reserved(floor, natural, flex)) == 0
  {
    var a, b := Contender(0, 1), Contender(1, 1);
    TwoCompete(floor, natural, Flex(0, 1), Flex(1, 1), a, b);
    TwoRanked(a, b);
    assert flex[0].index == 0 && flex[1].index == 1;
    assert forall i :: 0 <= i < 2 ==> Reserved(floor, natural, flex)[i] == 0;
    SumZeroIff(Reserved(floor, natural, flex));
    SecondGoesEmpty(a, b, floor);
    assert floor[[a, b][1].index] == 0;
  }

  lemma SecondGoesEmpty(a: Contender, b: Contender, floor: seq<nat>)
    requires a == Contender(0, 1) && b == Contender(1, 1) && floor == [0, 0]
    ensures GoesEmpty([a, b], floor, 1, 1)
  {
    var cs := [a, b];
    TwoContenders(a, b, 1);
    assert Even(cs) == 1;
    assert Share(cs, floor, 1, 0) == 0 && Share(cs, floor, 1, 1) == 0;
    TwoShares(a, b, floor, 1);
    var shares := Shares(cs, floor, 1, 2);
    assert shares == [0, 0];
    TwoHold(a, b, shares);
    assert Hungry(cs[1..], floor, shares, 0) == 0;
    assert Hungry(cs, floor, shares, 1) == 1;
  }

  /** A column named twice has its header added twice: this one is printed 11 wide. */
  lemma RepeatedColumnOverflows(style: Style, headers: seq<string>, rows: seq<seq<string>>, flex: seq<Flex>)
    requires headers == ["NAME"] && flex == [Flex(0, 9), Flex(0, 9)]
    requires rows != [] && ColumnWidth("NAME", rows, 0) >= 13 && forall j :: 0 <= j < |rows| ==> NoNewlines(rows[j])
    ensures SureWidth(headers, rows, flex) <= 10 && !LinesFit(FittedText(style, headers, rows, flex, Some(10)), 10)
  {
    RepeatedCaps(headers, rows, flex);
    PrintedTooWide(style, headers, rows, CapsFor(headers, rows, flex, Some(10)), 10);
  }

  lemma PrintedTooWide(style: Style, headers: seq<string>, rows: seq<seq<string>>, caps: seq<nat>, terminal: nat)
    requires rows != [] && NoNewlines(headers) && forall j :: 0 <= j < |rows| ==> NoNewlines(rows[j])
    requires TotalWidth(Widths(headers, CapRows(rows, caps))) > terminal
    ensures !LinesFit(TableText(style, headers, rows, caps), terminal)
  {
    PrintedWithinIff(style, headers, rows, caps, terminal);
  }

  lemma RepeatedCaps(headers: seq<string>, rows: seq<seq<string>>, flex: seq<Flex>)
    requires headers == ["NAME"] && flex == [Flex(0, 9), Flex(0, 9)] && ColumnWidth("NAME", rows, 0) >= 13
    ensures NoNewlines(headers) && SureWidth(headers, rows, flex) == 4
    ensures TotalWidth(Widths(headers, CapRows(rows, CapsFor(headers, rows, flex, Some(10))))) == 11
  {
    assert Floors(headers) == [4];
    OneColumn(Widths(headers, rows));
    TwiceTheSame(Floors(headers), Widths(headers, rows), flex);
    ElevenWide(headers, rows, CapsFor(headers, rows, flex, Some(10)));
  }

  lemma ElevenWide(headers: seq<string>, rows: seq<seq<string>>, caps: seq<nat>)
    requires headers == ["NAME"] && ColumnWidth("NAME", rows, 0) >= 13 && caps == [11]
    ensures TotalWidth(Widths(headers, CapRows(rows, caps))) == 11
  {
    CappedColumnWidth("NAME", rows, caps, 0);
    OneColumn(Widths(headers, CapRows(rows, caps)));
  }

  lemma TwiceTheSame(floor: seq<nat>, natural: seq<nat>, flex: seq<Flex>)
    requires floor == [4] && |natural| == 1 && natural[0] >= 13 && flex == [Flex(0, 9), Flex(0, 9)]
    ensures FittedCaps(floor, natural, flex, 10) == [11] && Sum(Reserved(floor, natural, flex)) == 4
  {
    var c := Contender(0, 13);
    assert flex[0].index == 0 && IsFlexible(flex, 0);
    OneColumn(Reserved(floor, natural, flex));
    assert Budget(floor, natural, flex, 10) == 6;
    TwoCompete(floor, natural, Flex(0, 9), Flex(0, 9), c, c);
    TwoRanked(c, c);
    ThreeEach(c, floor);
    FlooredTwice(c, floor);
    assert Granted(floor, natural, flex, 10) == [3];
  }

  lemma ThreeEach(c: Contender, floor: seq<nat>)
    requires c == Contender(0, 13) && floor == [4]
    ensures Shares([c, c], floor, 6, 2) == [3] && Held([c, c], [3]) == 6
  {
    var cs := [c, c];
    TwoContenders(c, c, 13);
    assert Even(cs) == 13;
    assert Share(cs, floor, 6, 0) == 3 && Share(cs, floor, 6, 1) == 3;
    TwoShares(c, c, floor, 6);
    TwoHold(c, c, [3]);
  }

  lemma FlooredTwice(c: Contender, floor: seq<nat>)
    requires c == Contender(0, 13) && floor == [4]
    ensures Floored([c, c], floor, [3], 2) == [11]
  {
    assert Floored([c, c], floor, [3], 0) == [3];
    assert Floored([c, c], floor, [3], 1) == [7];
  }
}
