/** Fitting a table to the terminal: every column keeps at least its header, flexible columns
    share what is left in proportion to their needs, and what rounding leaves over is handed
    back one character at a time. */
module Fitting {
  import opened Text
  import opened Numbers
  import opened Terminal
  import opened Table

  /** A column that may give up space: which one, and how much value it wants to show. */
  datatype Flex = Flex(index: nat, cap: nat)

  /** A flexible column in the competition: it wants `want` characters in all. */
  datatype Contender = Contender(index: nat, want: nat)

  predicate IsFlexible(flex: seq<Flex>, i: nat) {
    exists k :: 0 <= k < |flex| && flex[k].index == i
  }

  predicate DistinctFlex(flex: seq<Flex>) {
    forall j, k :: 0 <= j < k < |flex| ==> flex[j].index != flex[k].index
  }

  /** What each column is sure to get: its need, or if it is flexible its header. */
  function Reserved(floor: seq<nat>, natural: seq<nat>, flex: seq<Flex>): (r: seq<nat>)
    requires |floor| == |natural|
    ensures |r| == |floor|
  {
    seq(|floor|, i requires 0 <= i < |floor| => if IsFlexible(flex, i) then floor[i] else natural[i])
  }

  function Contenders(floor: seq<nat>, natural: seq<nat>, flex: seq<Flex>): (cs: seq<Contender>)
    requires |floor| == |natural|
  {
    if flex == [] then []
    else
      var rest := Contenders(floor, natural, flex[1..]);
      var f := flex[0];
      if f.cap > 0 && f.index < |natural| && natural[f.index] > 0
      then [Contender(f.index, Min(natural[f.index], SaturatingAdd(floor[f.index], f.cap, 0, USIZE_MAX)))] + rest
      else rest
  }

  function InsertByWant(c: Contender, cs: seq<Contender>): seq<Contender> {
    if cs == [] || c.want >= cs[0].want then [c] + cs else [cs[0]] + InsertByWant(c, cs[1..])
  }

  /** Stable sort by want, largest first. */
  function SortByWant(cs: seq<Contender>): seq<Contender> {
    if cs == [] then [] else InsertByWant(cs[0], SortByWant(cs[1..]))
  }

  /** Every contender is a column of the table. */
  predicate InRange(cs: seq<Contender>, columns: nat) {
    forall k :: 0 <= k < |cs| ==> cs[k].index < columns
  }

  lemma {:induction false} InsertInRange(c: Contender, cs: seq<Contender>, columns: nat)
    requires InRange(cs, columns) && c.index < columns
    ensures InRange(InsertByWant(c, cs), columns)
  {
    if cs != [] && c.want < cs[0].want {
      InsertInRange(c, cs[1..], columns);
    }
  }

  lemma {:induction false} ContendersInRange(floor: seq<nat>, natural: seq<nat>, flex: seq<Flex>)
    requires |floor| == |natural|
    ensures InRange(Contenders(floor, natural, flex), |natural|)
  {
    if flex != [] {
      ContendersInRange(floor, natural, flex[1..]);
    }
  }

  lemma {:induction false} SortInRange(cs: seq<Contender>, columns: nat)
    requires InRange(cs, columns)
    ensures InRange(SortByWant(cs), columns)
  {
    if cs != [] {
      SortInRange(cs[1..], columns);
      InsertInRange(cs[0], SortByWant(cs[1..]), columns);
    }
  }

  /** The contenders, largest want first. */
  function Ranked(floor: seq<nat>, natural: seq<nat>, flex: seq<Flex>): (cs: seq<Contender>)
    requires |floor| == |natural|
    ensures InRange(cs, |natural|)
  {
    ContendersInRange(floor, natural, flex);
    SortInRange(Contenders(floor, natural, flex), |natural|);
    SortByWant(Contenders(floor, natural, flex))
  }

  function Budget(floor: seq<nat>, natural: seq<nat>, flex: seq<Flex>, terminal: nat): nat
    requires |floor| == |natural|
  {
    SaturatingSub(terminal, Gaps(|floor|) + Sum(Reserved(floor, natural, flex)))
  }

  function TotalWant(cs: seq<Contender>): nat {
    if cs == [] then 0 else cs[0].want + TotalWant(cs[1..])
  }

  /** The even share: total demand over the number of contenders, rounded up. */
  function Even(cs: seq<Contender>): nat {
    var n := Max(|cs|, 1);
    (TotalWant(cs) + n - 1) / n
  }

  function Weight(c: Contender, even: nat): nat {
    Max(c.want, even)
  }

  function Pool(cs: seq<Contender>, even: nat): nat {
    if cs == [] then 0 else Weight(cs[0], even) + Pool(cs[1..], even)
  }

  /** The part of its want that a column's header does not already provide. */
  function Room(c: Contender, floor: seq<nat>): nat
    requires c.index < |floor|
  {
    SaturatingSub(c.want, floor[c.index])
  }

  /** A contender's proportional share of the budget, rounded down. */
  function Proportion(cs: seq<Contender>, budget: nat, k: nat): nat
    requires k < |cs|
  {
    var even := Even(cs);
    var pool := Pool(cs, even);
    if pool == 0 then 0 else Min(budget * Weight(cs[k], even), USIZE_MAX) / pool
  }

  /** That share, but at most what the contender can use. */
  function Share(cs: seq<Contender>, floor: seq<nat>, budget: nat, k: nat): nat
    requires k < |cs| && cs[k].index < |floor|
  {
    Min(Proportion(cs, budget, k), Room(cs[k], floor))
  }

  /** The characters the contenders hold. */
  function Held(cs: seq<Contender>, caps: seq<nat>): nat
    requires forall k :: 0 <= k < |cs| ==> cs[k].index < |caps|
  {
    if cs == [] then 0 else caps[cs[0].index] + Held(cs[1..], caps)
  }

  // ---------------------------------------------------------------- the caps, step by step

  /** The first `k` contenders have their shares; a column named twice has its last one. */
  function Shares(cs: seq<Contender>, floor: seq<nat>, budget: nat, k: nat): (r: seq<nat>)
    requires k <= |cs| && InRange(cs, |floor|)
    ensures |r| == |floor|
  {
    if k == 0 then seq(|floor|, i => 0)
    else Shares(cs, floor, budget, k - 1)[cs[k - 1].index := Share(cs, floor, budget, k - 1)]
  }

  predicate HasRoom(cs: seq<Contender>, floor: seq<nat>, caps: seq<nat>, k: nat)
    requires k < |cs| && cs[k].index < |caps| == |floor|
  {
    caps[cs[k].index] < Room(cs[k], floor)
  }

  /** The k-th contender takes a character if it has room for one. */
  function Give(cs: seq<Contender>, floor: seq<nat>, caps: seq<nat>, k: nat): (r: seq<nat>)
    requires k < |cs| && cs[k].index < |caps| == |floor|
    ensures |r| == |caps|
  {
    var i := cs[k].index;
    if HasRoom(cs, floor, caps, k) then caps[i := caps[i] + 1] else caps
  }

  /** One pass over the contenders from the k-th on: the caps, and what is left. */
  function PassFrom(cs: seq<Contender>, floor: seq<nat>, caps: seq<nat>, left: nat, k: nat): (r: (seq<nat>, nat))
    requires k <= |cs| && InRange(cs, |floor|) && |caps| == |floor|
    ensures |r.0| == |floor| && r.1 <= left
    decreases |cs| - k
  {
    if k == |cs| || left == 0 then (caps, left)
    else PassFrom(cs, floor, Give(cs, floor, caps, k), if HasRoom(cs, floor, caps, k) then left - 1 else left, k + 1)
  }

  /** Passes until nothing is left or nobody takes any. */
  function Handed(cs: seq<Contender>, floor: seq<nat>, caps: seq<nat>, left: nat): (r: seq<nat>)
    requires InRange(cs, |floor|) && |caps| == |floor|
    ensures |r| == |floor|
    decreases left
  {
    if left == 0 then caps
    else
      var pass := PassFrom(cs, floor, caps, left, 0);
      if pass.1 == left then pass.0 else Handed(cs, floor, pass.0, pass.1)
  }

  /** The first `k` contenders have their headers added. */
  function Floored(cs: seq<Contender>, floor: seq<nat>, caps: seq<nat>, k: nat): (r: seq<nat>)
    requires k <= |cs| && InRange(cs, |floor|) && |caps| == |floor|
    ensures |r| == |floor|
  {
    if k == 0 then caps
    else
      var before, i := Floored(cs, floor, caps, k - 1), cs[k - 1].index;
      before[i := before[i] + floor[i]]
  }

  /** What the contenders are granted beyond their headers. */
  function Granted(floor: seq<nat>, natural: seq<nat>, flex: seq<Flex>, terminal: nat): (r: seq<nat>)
    requires |floor| == |natural|
    ensures |r| == |floor|
  {
    var cs, budget := Ranked(floor, natural, flex), Budget(floor, natural, flex, terminal);
    var shares := Shares(cs, floor, budget, |cs|);
    Handed(cs, floor, shares, SaturatingSub(budget, Held(cs, shares)))
  }

  /** The caps a table gets when it does not fit as it is: a contender its header and its
      grant, a column that is not flexible its need. */
  function FittedCaps(floor: seq<nat>, natural: seq<nat>, flex: seq<Flex>, terminal: nat): (caps: seq<nat>)
    requires |floor| == |natural|
    ensures |caps| == |natural|
  {
    var cs := Ranked(floor, natural, flex);
    var added := Floored(cs, floor, Granted(floor, natural, flex, terminal), |cs|);
    seq(|natural|, i requires 0 <= i < |natural| => if IsFlexible(flex, i) then added[i] else natural[i])
  }

  function Floors(headers: seq<string>): (r: seq<nat>)
    ensures |r| == |headers|
  {
    seq(|headers|, i requires 0 <= i < |headers| => |headers[i]|)
  }

  /** The caps a table is rendered with: none if it fits as it is or the width is unknown. */
  function CapsFor(headers: seq<string>, rows: seq<seq<string>>, flex: seq<Flex>, terminal: Option<nat>): seq<nat> {
    var natural := Widths(headers, rows);
    if terminal.None? || TotalWidth(natural) <= terminal.value then []
    else FittedCaps(Floors(headers), natural, flex, terminal.value)
  }

  function FittedText(style: Style, headers: seq<string>, rows: seq<seq<string>>, flex: seq<Flex>, terminal: Option<nat>): string {
    TableText(style, headers, rows, CapsFor(headers, rows, flex, terminal))
  }

  // ---------------------------------------------------------------- the loops

  method ReserveBudget(floor: seq<nat>, natural: seq<nat>, flex: seq<Flex>, terminal: nat) returns (budget: nat)
    requires |floor| == |natural|
    ensures budget == Budget(floor, natural, flex, terminal)
  {
    var reserved := Reserved(floor, natural, flex);
    budget := SaturatingSub(terminal, Gaps(|floor|));
    var i := 0;
    while i < |floor|
      invariant i <= |floor|
      invariant SaturatingSub(budget, Sum(reserved[i..])) == Budget(floor, natural, flex, terminal)
    {
      assert reserved[i..][1..] == reserved[i + 1..];
      budget := SaturatingSub(budget, reserved[i]);
      i := i + 1;
    }
  }

  method ShareOut(cs: seq<Contender>, floor: seq<nat>, budget: nat) returns (caps: seq<nat>)
    requires InRange(cs, |floor|)
    ensures caps == Shares(cs, floor, budget, |cs|)
  {
    caps := seq(|floor|, i => 0);
    var k := 0;
    while k < |cs|
      invariant k <= |cs| && caps == Shares(cs, floor, budget, k)
    {
      caps := caps[cs[k].index := Share(cs, floor, budget, k)];
      k := k + 1;
    }
  }

  /** One pass over the contenders. `gave` tells whether anyone took a character. */
  method Pass(cs: seq<Contender>, floor: seq<nat>, before: seq<nat>, budget: nat) returns (caps: seq<nat>, left: nat, gave: bool)
    requires InRange(cs, |floor|) && |before| == |floor|
    ensures (caps, left) == PassFrom(cs, floor, before, budget, 0)
    ensures gave <==> left < budget
  {
    caps, left, gave := before, budget, false;
    var k := 0;
    while k < |cs|
      invariant k <= |cs| && |caps| == |floor| && left <= budget
      invariant PassFrom(cs, floor, caps, left, k) == PassFrom(cs, floor, before, budget, 0)
      invariant gave <==> left < budget
    {
      if left == 0 {
        break;
      }
      var i := cs[k].index;
      if caps[i] < Room(cs[k], floor) {
        caps := caps[i := caps[i] + 1];
        left := left - 1;
        gave := true;
      }
      k := k + 1;
    }
  }

  /** The hand-back loop: passes until nothing is left or nobody takes any. */
  method HandBack(cs: seq<Contender>, floor: seq<nat>, start: seq<nat>, budget: nat) returns (caps: seq<nat>)
    requires InRange(cs, |floor|) && |start| == |floor|
    ensures caps == Handed(cs, floor, start, budget)
  {
    caps := start;
    var left := budget;
    while left > 0
      invariant |caps| == |floor| && Handed(cs, floor, caps, left) == Handed(cs, floor, start, budget)
    {
      var gave: bool;
      ghost var before := left;
      caps, left, gave := Pass(cs, floor, caps, left);
      if !gave {
        return;
      }
      assert left < before;
    }
  }

  method AddFloors(cs: seq<Contender>, floor: seq<nat>, grants: seq<nat>) returns (caps: seq<nat>)
    requires InRange(cs, |floor|) && |grants| == |floor|
    ensures caps == Floored(cs, floor, grants, |cs|)
  {
    caps := grants;
    var k := 0;
    while k < |cs|
      invariant k <= |cs| && caps == Floored(cs, floor, grants, k)
    {
      var i := cs[k].index;
      caps := caps[i := caps[i] + floor[i]];
      k := k + 1;
    }
  }

  method FixOthers(natural: seq<nat>, flex: seq<Flex>, added: seq<nat>) returns (caps: seq<nat>)
    requires |added| == |natural|
    ensures |caps| == |natural|
    ensures forall i :: 0 <= i < |caps| ==> caps[i] == if IsFlexible(flex, i) then added[i] else natural[i]
  {
    caps := added;
    var i := 0;
    while i < |natural|
      invariant i <= |natural| && |caps| == |natural|
      invariant forall j :: 0 <= j < |caps| ==> caps[j] == if j < i && !IsFlexible(flex, j) then natural[j] else added[j]
    {
      if !IsFlexible(flex, i) {
        caps := caps[i := natural[i]];
      }
      i := i + 1;
    }
  }

  /** The cap arithmetic of `table_fitted`, for any choice of flexible columns. */
  method FitCaps(floor: seq<nat>, natural: seq<nat>, flex: seq<Flex>, terminal: nat) returns (caps: seq<nat>)
    requires |floor| == |natural|
    ensures caps == FittedCaps(floor, natural, flex, terminal)
  {
    var budget := ReserveBudget(floor, natural, flex, terminal);
    var cs := Ranked(floor, natural, flex);
    var shares := ShareOut(cs, floor, budget);
    var grants := HandBack(cs, floor, shares, SaturatingSub(budget, Held(cs, shares)));
    var added := AddFloors(cs, floor, grants);
    caps := FixOthers(natural, flex, added);
  }

  method TableFitted(style: Style, headers: seq<string>, rows: seq<seq<string>>, flex: seq<Flex>, terminal: Option<nat>) returns (out: string)
    ensures out == FittedText(style, headers, rows, flex, terminal)
  {
    var caps := [];
    if terminal.Some? {
      var natural := MeasureWidths(headers, rows);
      if TotalWidth(natural) > terminal.value {
        caps := FitCaps(Floors(headers), natural, flex, terminal.value);
      }
    }
    out := TableCapped(style, headers, rows, caps);
  }
}
