/** What the fitted caps come to: shares within the budget, a hand-back that wastes nothing,
    and exactly when the printed table is within the terminal. */
module FittingProperties {
  import opened Text
  import opened Numbers
  import opened Terminal
  import opened Table
  import opened Fitting

  /** Indices distinct and in range, wants between header and need. */
  predicate Sound(cs: seq<Contender>, floor: seq<nat>, natural: seq<nat>) {
    && |floor| == |natural|
    && (forall k :: 0 <= k < |cs| ==> cs[k].index < |floor| && cs[k].want <= natural[cs[k].index])
    && (forall j, k :: 0 <= j < k < |cs| ==> cs[j].index != cs[k].index)
  }

  /** How much a contender gains when characters are handed round: one in each whole round
      while it still has room, and one more if it comes before the cut in the last round. */
  function Gain(room: nat, rounds: nat, cut: nat, k: nat): nat {
    Min(room, rounds + (if k < cut then 1 else 0))
  }

  /** What every contender holds after `rounds` whole rounds and the start of another. */
  ghost predicate Gained(cs: seq<Contender>, floor: seq<nat>, start: seq<nat>, caps: seq<nat>, rounds: nat, cut: nat)
    requires forall k :: 0 <= k < |cs| ==> cs[k].index < |floor|
  {
    && |start| == |caps| == |floor|
    && (forall k :: 0 <= k < |cs| ==>
          caps[cs[k].index] == start[cs[k].index] + Gain(SaturatingSub(Room(cs[k], floor), start[cs[k].index]), rounds, cut, k))
    && (forall i :: 0 <= i < |start| && (forall k :: 0 <= k < |cs| ==> cs[k].index != i) ==> caps[i] == start[i])
  }

  /** Every contender holds what it can use. */
  ghost predicate Satisfied(cs: seq<Contender>, floor: seq<nat>, caps: seq<nat>)
    requires |caps| == |floor| && forall k :: 0 <= k < |cs| ==> cs[k].index < |floor|
  {
    forall k :: 0 <= k < |cs| ==> caps[cs[k].index] >= Room(cs[k], floor)
  }

  /** The result of handing `left` characters round, starting from `start`. */
  ghost predicate HandedBack(cs: seq<Contender>, floor: seq<nat>, start: seq<nat>, left: nat, end: seq<nat>, rounds: nat, cut: nat)
    requires forall k :: 0 <= k < |cs| ==> cs[k].index < |floor|
  {
    && Gained(cs, floor, start, end, rounds, cut)
    && Held(cs, end) <= Held(cs, start) + left
    && (Held(cs, end) == Held(cs, start) + left || Satisfied(cs, floor, end))
  }

  lemma {:induction false} HeldUpdate(cs: seq<Contender>, caps: seq<nat>, j: nat, v: nat)
    requires forall k :: 0 <= k < |cs| ==> cs[k].index < |caps|
    requires forall a, b :: 0 <= a < b < |cs| ==> cs[a].index != cs[b].index
    requires j < |cs|
    ensures Held(cs, caps[cs[j].index := v]) == Held(cs, caps) - caps[cs[j].index] + v
  {
    if j == 0 {
      HeldElsewhere(cs[1..], caps, cs[0].index, v);
    } else {
      HeldUpdate(cs[1..], caps, j - 1, v);
      HeldContains(cs[1..], caps, j - 1);
    }
  }

  lemma {:induction false} HeldContains(cs: seq<Contender>, caps: seq<nat>, j: nat)
    requires forall k :: 0 <= k < |cs| ==> cs[k].index < |caps|
    requires j < |cs|
    ensures caps[cs[j].index] <= Held(cs, caps)
  {
    if j > 0 {
      HeldContains(cs[1..], caps, j - 1);
    }
  }

  lemma {:induction false} HeldElsewhere(cs: seq<Contender>, caps: seq<nat>, i: nat, v: nat)
    requires forall k :: 0 <= k < |cs| ==> cs[k].index < |caps| && cs[k].index != i
    requires i < |caps|
    ensures Held(cs, caps[i := v]) == Held(cs, caps)
  {
    if cs != [] {
      HeldElsewhere(cs[1..], caps, i, v);
    }
  }

  /** One contender further in a round. */
  lemma GainedNext(cs: seq<Contender>, floor: seq<nat>, natural: seq<nat>, start: seq<nat>, caps: seq<nat>, rounds: nat, k: nat)
    requires Sound(cs, floor, natural) && k < |cs| && Gained(cs, floor, start, caps, rounds, k)
    ensures Gained(cs, floor, start, Give(cs, floor, caps, k), rounds, k + 1)
  {
    var i := cs[k].index;
    var next := Give(cs, floor, caps, k);
    forall j | 0 <= j < |cs|
      ensures next[cs[j].index] == start[cs[j].index] + Gain(SaturatingSub(Room(cs[j], floor), start[cs[j].index]), rounds, k + 1, j)
    {
      if j < k {
        assert cs[j].index != i;
      } else if j > k {
        assert cs[k].index != cs[j].index;
      }
    }
  }

  lemma GiveHeld(cs: seq<Contender>, floor: seq<nat>, natural: seq<nat>, caps: seq<nat>, k: nat)
    requires Sound(cs, floor, natural) && k < |cs| && |caps| == |floor|
    ensures Held(cs, Give(cs, floor, caps, k)) == Held(cs, caps) + if caps[cs[k].index] < Room(cs[k], floor) then 1 else 0
  {
    HeldUpdate(cs, caps, k, caps[cs[k].index] + 1);
  }

  /** A whole round is the start of the next one. */
  lemma GainedRound(cs: seq<Contender>, floor: seq<nat>, start: seq<nat>, caps: seq<nat>, rounds: nat)
    requires forall k :: 0 <= k < |cs| ==> cs[k].index < |floor|
    requires Gained(cs, floor, start, caps, rounds, |cs|)
    ensures Gained(cs, floor, start, caps, rounds + 1, 0)
  {
  }

  /** A pass that has dealt with the first k contenders and has `left` characters left. */
  ghost predicate InPass(cs: seq<Contender>, floor: seq<nat>, start: seq<nat>, before: seq<nat>, budget: nat, rounds: nat,
                         k: nat, caps: seq<nat>, left: nat)
    requires k <= |cs| && |before| == |floor| && forall j :: 0 <= j < |cs| ==> cs[j].index < |floor|
  {
    && Gained(cs, floor, start, caps, rounds, k)
    && left <= budget && Held(cs, caps) + left == Held(cs, before) + budget
    && (left == budget ==> caps == before && Satisfied(cs[..k], floor, caps))
  }

  lemma PassStep(cs: seq<Contender>, floor: seq<nat>, natural: seq<nat>, start: seq<nat>, before: seq<nat>, budget: nat, rounds: nat,
                 k: nat, caps: seq<nat>, left: nat)
    requires Sound(cs, floor, natural) && k < |cs| && |before| == |floor| && left > 0
    requires InPass(cs, floor, start, before, budget, rounds, k, caps, left)
    ensures InPass(cs, floor, start, before, budget, rounds, k + 1, Give(cs, floor, caps, k),
                   if HasRoom(cs, floor, caps, k) then left - 1 else left)
  {
    GainedNext(cs, floor, natural, start, caps, rounds, k);
    GiveHeld(cs, floor, natural, caps, k);
    if !HasRoom(cs, floor, caps, k) && left == budget {
      SatisfiedNext(cs, floor, caps, k);
    }
  }

  lemma SatisfiedNext(cs: seq<Contender>, floor: seq<nat>, caps: seq<nat>, k: nat)
    requires k < |cs| && InRange(cs, |floor|) && |caps| == |floor|
    requires Satisfied(cs[..k], floor, caps) && !HasRoom(cs, floor, caps, k)
    ensures Satisfied(cs[..k + 1], floor, caps)
  {
    assert cs[..k + 1] == cs[..k] + [cs[k]];
  }

  lemma PassNext(cs: seq<Contender>, floor: seq<nat>, caps: seq<nat>, left: nat, k: nat) returns (next: seq<nat>, rest: nat)
    requires k < |cs| && InRange(cs, |floor|) && |caps| == |floor| && left > 0
    ensures next == Give(cs, floor, caps, k) && rest == if HasRoom(cs, floor, caps, k) then left - 1 else left
    ensures PassFrom(cs, floor, caps, left, k) == PassFrom(cs, floor, next, rest, k + 1)
  {
    next, rest := Give(cs, floor, caps, k), if HasRoom(cs, floor, caps, k) then left - 1 else left;
  }

  /** A pass that is under way ends as a pass: at the end of the contenders, unless it runs out. */
  lemma {:induction false} PassMeaning(cs: seq<Contender>, floor: seq<nat>, natural: seq<nat>, start: seq<nat>, before: seq<nat>,
                                       budget: nat, rounds: nat, k: nat, caps: seq<nat>, left: nat)
    returns (end: seq<nat>, spare: nat, cut: nat)
    requires Sound(cs, floor, natural) && k <= |cs| && |before| == |floor|
    requires InPass(cs, floor, start, before, budget, rounds, k, caps, left)
    ensures (end, spare) == PassFrom(cs, floor, caps, left, k)
    ensures cut <= |cs| && InPass(cs, floor, start, before, budget, rounds, cut, end, spare)
    ensures spare > 0 ==> cut == |cs|
    decreases |cs| - k
  {
    if k == |cs| || left == 0 {
      end, spare, cut := caps, left, k;
    } else {
      var next, rest := PassNext(cs, floor, caps, left, k);
      PassStep(cs, floor, natural, start, before, budget, rounds, k, caps, left);
      end, spare, cut := PassMeaning(cs, floor, natural, start, before, budget, rounds, k + 1, next, rest);
    }
  }

  /** One pass from the start of a round: a whole round, or the end of the hand-back. */
  lemma RoundMeaning(cs: seq<Contender>, floor: seq<nat>, natural: seq<nat>, start: seq<nat>, budget: nat, done: nat, caps: seq<nat>, left: nat)
    returns (end: seq<nat>, spare: nat, cut: nat)
    requires Sound(cs, floor, natural) && |start| == |floor| && left > 0
    requires Gained(cs, floor, start, caps, done, 0) && Held(cs, caps) + left == Held(cs, start) + budget
    ensures (end, spare) == PassFrom(cs, floor, caps, left, 0) && spare <= left
    ensures Held(cs, end) + spare == Held(cs, start) + budget
    ensures spare == left ==> HandedBack(cs, floor, start, budget, end, done, cut)
    ensures spare == 0 ==> HandedBack(cs, floor, start, budget, end, done, cut)
    ensures spare > 0 ==> Gained(cs, floor, start, end, done + 1, 0)
  {
    end, spare, cut := PassMeaning(cs, floor, natural, start, caps, left, done, 0, caps, left);
    if spare > 0 {
      assert cs[..cut] == cs;
      GainedRound(cs, floor, start, end, done);
    }
  }

  lemma HandedNext(cs: seq<Contender>, floor: seq<nat>, caps: seq<nat>, left: nat, end: seq<nat>, spare: nat)
    requires InRange(cs, |floor|) && |caps| == |floor| && left > 0 && (end, spare) == PassFrom(cs, floor, caps, left, 0)
    ensures Handed(cs, floor, caps, left) == if spare == left || spare == 0 then end else Handed(cs, floor, end, spare)
  {
    if spare == 0 {
      assert Handed(cs, floor, end, 0) == end;
    }
  }

  /** Handing round what is left after `done` whole rounds. */
  lemma {:induction false} RoundsMeaning(cs: seq<Contender>, floor: seq<nat>, natural: seq<nat>, start: seq<nat>, budget: nat,
                                         done: nat, caps: seq<nat>, left: nat) returns (all: seq<nat>, rounds: nat, cut: nat)
    requires Sound(cs, floor, natural) && |start| == |floor|
    requires Gained(cs, floor, start, caps, done, 0) && Held(cs, caps) + left == Held(cs, start) + budget
    ensures all == Handed(cs, floor, caps, left) && HandedBack(cs, floor, start, budget, all, rounds, cut)
    decreases left
  {
    if left == 0 {
      all, rounds, cut := caps, done, 0;
    } else {
      var end, spare;
      end, spare, cut := RoundMeaning(cs, floor, natural, start, budget, done, caps, left);
      HandedNext(cs, floor, caps, left, end, spare);
      if spare == left || spare == 0 {
        all, rounds := end, done;
      } else {
        all, rounds, cut := RoundsMeaning(cs, floor, natural, start, budget, done + 1, end, spare);
      }
    }
  }

  /** The hand-back ends with nothing left or nobody with room, and whoever has room at the end
      has taken one character in every round. */
  lemma HandedMeaning(cs: seq<Contender>, floor: seq<nat>, natural: seq<nat>, start: seq<nat>, budget: nat) returns (rounds: nat, cut: nat)
    requires Sound(cs, floor, natural) && |start| == |floor|
    ensures HandedBack(cs, floor, start, budget, Handed(cs, floor, start, budget), rounds, cut)
  {
    var all;
    all, rounds, cut := RoundsMeaning(cs, floor, natural, start, budget, 0, start, budget);
  }

  // ---------------------------------------------------------------- the allotment

  /** Everyone's proportional share, nothing elsewhere. */
  ghost predicate Shared(cs: seq<Contender>, floor: seq<nat>, budget: nat, caps: seq<nat>)
    requires forall k :: 0 <= k < |cs| ==> cs[k].index < |floor|
  {
    && |caps| == |floor|
    && (forall k :: 0 <= k < |cs| ==> caps[cs[k].index] == Share(cs, floor, budget, k))
    && (forall i :: 0 <= i < |caps| && (forall k :: 0 <= k < |cs| ==> cs[k].index != i) ==> caps[i] == 0)
  }

  lemma {:induction false} SharesUpTo(cs: seq<Contender>, floor: seq<nat>, natural: seq<nat>, budget: nat, k: nat)
    requires Sound(cs, floor, natural) && k <= |cs|
    ensures var caps := Shares(cs, floor, budget, k);
      && (forall j :: 0 <= j < k ==> caps[cs[j].index] == Share(cs, floor, budget, j))
      && (forall i :: 0 <= i < |caps| && (forall j :: 0 <= j < k ==> cs[j].index != i) ==> caps[i] == 0)
  {
    if k > 0 {
      SharesUpTo(cs, floor, natural, budget, k - 1);
    }
  }

  lemma {:induction false} FlooredUpTo(cs: seq<Contender>, floor: seq<nat>, natural: seq<nat>, grants: seq<nat>, k: nat)
    requires Sound(cs, floor, natural) && k <= |cs| && |grants| == |floor|
    ensures var caps := Floored(cs, floor, grants, k);
      && (forall j :: 0 <= j < k ==> caps[cs[j].index] == floor[cs[j].index] + grants[cs[j].index])
      && (forall i :: 0 <= i < |caps| && (forall j :: 0 <= j < k ==> cs[j].index != i) ==> caps[i] == grants[i])
  {
    if k > 0 {
      FlooredUpTo(cs, floor, natural, grants, k - 1);
    }
  }

  /** The caps a table gets when it does not fit as it is: a contender its header plus what
      sharing and hand-back grant it, a fixed column its need, any other column nothing. */
  ghost predicate Allotment(floor: seq<nat>, natural: seq<nat>, flex: seq<Flex>, terminal: nat,
                            caps: seq<nat>, shares: seq<nat>, grants: seq<nat>, rounds: nat, cut: nat)
    requires |floor| == |natural|
  {
    var cs, budget := Ranked(floor, natural, flex), Budget(floor, natural, flex, terminal);
    && Sound(cs, floor, natural)
    && Shared(cs, floor, budget, shares)
    && HandedBack(cs, floor, shares, SaturatingSub(budget, Held(cs, shares)), grants, rounds, cut)
    && |caps| == |floor|
    && (forall k :: 0 <= k < |cs| ==> caps[cs[k].index] == floor[cs[k].index] + grants[cs[k].index])
    && (forall i :: 0 <= i < |caps| && !IsFlexible(flex, i) ==> caps[i] == natural[i])
    && (forall i :: 0 <= i < |caps| && IsFlexible(flex, i) && (forall k :: 0 <= k < |cs| ==> cs[k].index != i) ==> caps[i] == 0)
  }

  /** A contender is a flexible column with a cap, wanting its need up to header plus cap. */
  predicate Competes(f: Flex, c: Contender, floor: seq<nat>, natural: seq<nat>)
    requires |floor| == |natural|
  {
    && f.cap > 0 && f.index == c.index < |floor| && natural[c.index] > 0
    && c.want == Min(natural[c.index], SaturatingAdd(floor[c.index], f.cap, 0, USIZE_MAX))
  }

  lemma {:induction false} ContenderBacked(floor: seq<nat>, natural: seq<nat>, flex: seq<Flex>, c: Contender)
    requires |floor| == |natural| && c in Contenders(floor, natural, flex)
    ensures exists f :: f in flex && Competes(f, c, floor, natural)
  {
    var rest := Contenders(floor, natural, flex[1..]);
    if c in rest {
      ContenderBacked(floor, natural, flex[1..], c);
    } else {
      assert flex[0] in flex && Competes(flex[0], c, floor, natural);
    }
  }

  lemma {:induction false} ContenderExists(floor: seq<nat>, natural: seq<nat>, flex: seq<Flex>, f: Flex) returns (c: Contender)
    requires |floor| == |natural| && f in flex && f.cap > 0 && f.index < |natural| && natural[f.index] > 0
    ensures c in Contenders(floor, natural, flex) && Competes(f, c, floor, natural)
  {
    if f == flex[0] {
      c := Contenders(floor, natural, flex)[0];
    } else {
      c := ContenderExists(floor, natural, flex[1..], f);
    }
  }

  lemma {:induction false} ContendersSound(floor: seq<nat>, natural: seq<nat>, flex: seq<Flex>)
    requires |floor| == |natural| && DistinctFlex(flex)
    ensures Sound(Contenders(floor, natural, flex), floor, natural)
  {
    if flex != [] {
      ContendersSound(floor, natural, flex[1..]);
      var rest, cs := Contenders(floor, natural, flex[1..]), Contenders(floor, natural, flex);
      forall k | 0 <= k < |rest|
        ensures rest[k].index != flex[0].index
      {
        ContenderBacked(floor, natural, flex[1..], rest[k]);
      }
      if cs != rest {
        assert cs[1..] == rest;
        assert forall k :: 0 < k < |cs| ==> cs[k] == rest[k - 1];
      }
    }
  }

  lemma {:induction false} InsertMembers(c: Contender, cs: seq<Contender>)
    ensures forall x :: x in InsertByWant(c, cs) <==> x == c || x in cs
  {
    if cs != [] && c.want < cs[0].want {
      InsertMembers(c, cs[1..]);
      ConsMembers(cs[0], cs[1..], cs);
      ConsMembers(cs[0], InsertByWant(c, cs[1..]), InsertByWant(c, cs));
    }
  }

  lemma ConsMembers(c: Contender, rest: seq<Contender>, cs: seq<Contender>)
    requires cs == [c] + rest
    ensures forall x :: x in cs <==> x == c || x in rest
  {
  }

  predicate Distinct(cs: seq<Contender>) {
    forall j, k :: 0 <= j < k < |cs| ==> cs[j].index != cs[k].index
  }

  /** A contender for a new column keeps the columns distinct. */
  lemma {:induction false} InsertDistinct(c: Contender, cs: seq<Contender>)
    requires Distinct(cs) && forall k :: 0 <= k < |cs| ==> cs[k].index != c.index
    ensures Distinct(InsertByWant(c, cs))
  {
    if cs != [] && c.want < cs[0].want {
      InsertDistinct(c, cs[1..]);
      var rest := InsertByWant(c, cs[1..]);
      InsertMembers(c, cs[1..]);
      forall k | 0 <= k < |rest|
        ensures rest[k].index != cs[0].index
      {
        assert rest[k] in rest;
      }
    }
  }

  lemma {:induction false} SortKeeps(cs: seq<Contender>)
    requires Distinct(cs)
    ensures Distinct(SortByWant(cs))
    ensures forall x :: x in SortByWant(cs) <==> x in cs
  {
    if cs != [] {
      SortKeeps(cs[1..]);
      var rest := SortByWant(cs[1..]);
      forall k | 0 <= k < |rest|
        ensures rest[k].index != cs[0].index
      {
        assert rest[k] in cs[1..];
      }
      InsertDistinct(cs[0], rest);
      InsertMembers(cs[0], rest);
      ConsMembers(cs[0], cs[1..], cs);
    }
  }

  lemma RankedSound(floor: seq<nat>, natural: seq<nat>, flex: seq<Flex>)
    requires |floor| == |natural| && DistinctFlex(flex)
    ensures Sound(Ranked(floor, natural, flex), floor, natural)
    ensures forall c :: c in Ranked(floor, natural, flex) <==> c in Contenders(floor, natural, flex)
  {
    var cs := Contenders(floor, natural, flex);
    ContendersSound(floor, natural, flex);
    SortKeeps(cs);
    var ranked := Ranked(floor, natural, flex);
    forall k | 0 <= k < |ranked|
      ensures ranked[k].index < |floor| && ranked[k].want <= natural[ranked[k].index]
    {
      assert ranked[k] in cs;
    }
  }

  /** Unless a column is named twice, the caps are an allotment. */
  lemma CapsAllot(floor: seq<nat>, natural: seq<nat>, flex: seq<Flex>, terminal: nat) returns (shares: seq<nat>, rounds: nat, cut: nat)
    requires |floor| == |natural| && DistinctFlex(flex)
    ensures shares == Shares(Ranked(floor, natural, flex), floor, Budget(floor, natural, flex, terminal), |Ranked(floor, natural, flex)|)
    ensures Allotment(floor, natural, flex, terminal, FittedCaps(floor, natural, flex, terminal), shares,
                      Granted(floor, natural, flex, terminal), rounds, cut)
  {
    var cs, budget := Ranked(floor, natural, flex), Budget(floor, natural, flex, terminal);
    RankedSound(floor, natural, flex);
    shares := Shares(cs, floor, budget, |cs|);
    SharesUpTo(cs, floor, natural, budget, |cs|);
    var grants := Granted(floor, natural, flex, terminal);
    rounds, cut := HandedMeaning(cs, floor, natural, shares, SaturatingSub(budget, Held(cs, shares)));
    FlooredUpTo(cs, floor, natural, grants, |cs|);
    Assembled(floor, natural, flex, terminal, FittedCaps(floor, natural, flex, terminal), shares, grants,
              Floored(cs, floor, grants, |cs|), rounds, cut);
  }

  lemma Assembled(floor: seq<nat>, natural: seq<nat>, flex: seq<Flex>, terminal: nat, caps: seq<nat>,
                  shares: seq<nat>, grants: seq<nat>, added: seq<nat>, rounds: nat, cut: nat)
    requires |floor| == |natural| == |added| == |caps| && DistinctFlex(flex)
    requires var cs, budget := Ranked(floor, natural, flex), Budget(floor, natural, flex, terminal);
      && Sound(cs, floor, natural) && Shared(cs, floor, budget, shares)
      && HandedBack(cs, floor, shares, SaturatingSub(budget, Held(cs, shares)), grants, rounds, cut)
      && (forall k :: 0 <= k < |cs| ==> added[cs[k].index] == floor[cs[k].index] + grants[cs[k].index])
      && (forall i :: 0 <= i < |added| && (forall k :: 0 <= k < |cs| ==> cs[k].index != i) ==> added[i] == grants[i])
    requires forall i :: 0 <= i < |caps| ==> caps[i] == if IsFlexible(flex, i) then added[i] else natural[i]
    ensures Allotment(floor, natural, flex, terminal, caps, shares, grants, rounds, cut)
  {
    RankedFlexible(floor, natural, flex);
    var cs := Ranked(floor, natural, flex);
    forall k | 0 <= k < |cs|
      ensures IsFlexible(flex, cs[k].index)
    {
      assert cs[k] in cs;
    }
  }

  lemma RankedFlexible(floor: seq<nat>, natural: seq<nat>, flex: seq<Flex>)
    requires |floor| == |natural| && DistinctFlex(flex)
    ensures forall c :: c in Ranked(floor, natural, flex) ==> IsFlexible(flex, c.index)
  {
    RankedSound(floor, natural, flex);
    forall c | c in Ranked(floor, natural, flex)
      ensures IsFlexible(flex, c.index)
    {
      ContenderBacked(floor, natural, flex, c);
    }
  }

  /** Space that is spoken for before anything is shared. */
  function SureWidth(headers: seq<string>, rows: seq<seq<string>>, flex: seq<Flex>): nat {
    Gaps(|headers|) + Sum(Reserved(Floors(headers), Widths(headers, rows), flex))
  }

  lemma {:induction false} SharesTimesPool(cs: seq<Contender>, even: nat, budget: nat, shares: seq<nat>, pool: nat)
    requires forall k :: 0 <= k < |cs| ==> cs[k].index < |shares|
    requires pool > 0 && forall k :: 0 <= k < |cs| ==> shares[cs[k].index] * pool <= budget * Weight(cs[k], even)
    ensures Held(cs, shares) * pool <= budget * Pool(cs, even)
  {
    if cs != [] {
      SharesTimesPool(cs[1..], even, budget, shares, pool);
      Distribute(shares[cs[0].index], Held(cs[1..], shares), pool, budget, Weight(cs[0], even), Pool(cs[1..], even));
    }
  }

  lemma Distribute(a: nat, b: nat, pool: nat, budget: nat, v: nat, w: nat)
    requires a * pool <= budget * v && b * pool <= budget * w
    ensures (a + b) * pool <= budget * (v + w)
  {
  }

  lemma ShareBound(x: nat, pool: nat, room: nat)
    requires pool > 0
    ensures Min(Min(x, USIZE_MAX) / pool, room) * pool <= x
  {
    var q := Min(x, USIZE_MAX) / pool;
    assert q * pool <= Min(x, USIZE_MAX);
    var s := Min(q, room);
    assert s * pool <= q * pool;
  }

  lemma Cancel(a: nat, b: nat, pool: nat)
    requires pool > 0 && a * pool <= b * pool
    ensures a <= b
  {
  }

  /** The floored shares never exceed the budget. */
  lemma SharesWithinBudget(cs: seq<Contender>, floor: seq<nat>, natural: seq<nat>, budget: nat, shares: seq<nat>)
    requires Sound(cs, floor, natural) && Shared(cs, floor, budget, shares)
    ensures Held(cs, shares) <= budget
  {
    var even := Even(cs);
    var pool := Pool(cs, even);
    if pool == 0 {
      HeldNothing(cs, shares);
    } else {
      forall k | 0 <= k < |cs|
        ensures shares[cs[k].index] * pool <= budget * Weight(cs[k], even)
      {
        ShareBound(budget * Weight(cs[k], even), pool, Room(cs[k], floor));
      }
      SharesTimesPool(cs, even, budget, shares, pool);
      Cancel(Held(cs, shares), budget, pool);
    }
  }

  lemma {:induction false} HeldNothing(cs: seq<Contender>, caps: seq<nat>)
    requires forall k :: 0 <= k < |cs| ==> cs[k].index < |caps| && caps[cs[k].index] == 0
    ensures Held(cs, caps) == 0
  {
    if cs != [] {
      HeldNothing(cs[1..], caps);
    }
  }

  lemma {:induction false} SumUpdate(s: seq<nat>, i: nat, v: nat)
    requires i < |s|
    ensures Sum(s[i := v]) == Sum(s) - s[i] + v
  {
    if i > 0 {
      SumUpdate(s[1..], i - 1, v);
      assert s[i := v][1..] == s[1..][i - 1 := v];
    } else {
      assert s[i := v][1..] == s[1..];
    }
  }

  /** Granting characters to distinct columns adds them to the total. */
  lemma {:induction false} SumGranted(cs: seq<Contender>, base: seq<nat>, caps: seq<nat>, grants: seq<nat>)
    requires |base| == |caps| == |grants| && forall k :: 0 <= k < |cs| ==> cs[k].index < |caps|
    requires forall a, b :: 0 <= a < b < |cs| ==> cs[a].index != cs[b].index
    requires forall k :: 0 <= k < |cs| ==> caps[cs[k].index] == base[cs[k].index] + grants[cs[k].index]
    requires forall i :: 0 <= i < |caps| && (forall k :: 0 <= k < |cs| ==> cs[k].index != i) ==> caps[i] == base[i]
    ensures Sum(caps) == Sum(base) + Held(cs, grants)
  {
    if cs == [] {
      assert caps == base;
    } else {
      var i := cs[0].index;
      var next := base[i := caps[i]];
      SumUpdate(base, i, caps[i]);
      forall j | 0 <= j < |caps| && (forall k :: 0 <= k < |cs[1..]| ==> cs[1..][k].index != j)
        ensures caps[j] == next[j]
      {
        if j != i {
          assert forall k :: 0 <= k < |cs| ==> k == 0 || cs[k] == cs[1..][k - 1];
        }
      }
      SumGranted(cs[1..], next, caps, grants);
    }
  }

  lemma {:induction false} SumZeros(n: nat)
    ensures Sum(seq(n, i => 0)) == 0
  {
    if n > 0 {
      SumZeros(n - 1);
      assert seq(n, i => 0)[1..] == seq(n - 1, i => 0);
    }
  }

  lemma {:induction false} SumThree(w: seq<nat>, a: seq<nat>, b: seq<nat>, c: seq<nat>)
    requires |w| == |a| == |b| == |c| && forall i :: 0 <= i < |w| ==> w[i] == a[i] + b[i] + c[i]
    ensures Sum(w) == Sum(a) + Sum(b) + Sum(c)
  {
    if w != [] {
      SumThree(w[1..], a[1..], b[1..], c[1..]);
    }
  }

  lemma {:induction false} SumMonotone(a: seq<nat>, b: seq<nat>)
    requires |a| == |b| && forall i :: 0 <= i < |a| ==> a[i] <= b[i]
    ensures Sum(a) <= Sum(b)
  {
    if a != [] {
      SumMonotone(a[1..], b[1..]);
    }
  }

  lemma {:induction false} SumZeroIff(s: seq<nat>)
    ensures Sum(s) == 0 <==> forall i :: 0 <= i < |s| ==> s[i] == 0
  {
    if s != [] {
      SumZeroIff(s[1..]);
      assert forall i :: 0 < i < |s| ==> s[i] == s[1..][i - 1];
    }
  }

  /** What is held by contenders alone is the whole sum. */
  lemma SumHeld(cs: seq<Contender>, g: seq<nat>)
    requires InRange(cs, |g|) && Distinct(cs)
    requires forall i :: 0 <= i < |g| && (forall k :: 0 <= k < |cs| ==> cs[k].index != i) ==> g[i] == 0
    ensures Sum(g) == Held(cs, g)
  {
    var zeros := seq(|g|, i => 0);
    SumZeros(|g|);
    SumGranted(cs, zeros, g, g);
  }

  // ---------------------------------------------------------------- what a column comes to

  /** The caller gave the column a cap of 0. */
  predicate Uncapped(flex: seq<Flex>, i: nat) {
    exists k :: 0 <= k < |flex| && flex[k].index == i && flex[k].cap == 0
  }

  /** What the columns with a cap of 0 show beyond their headers: all they have. */
  function ZeroExtra(floor: seq<nat>, natural: seq<nat>, flex: seq<Flex>): (r: seq<nat>)
    requires |floor| == |natural|
    ensures |r| == |natural|
  {
    seq(|natural|, i requires 0 <= i < |natural| => if Uncapped(flex, i) then SaturatingSub(natural[i], floor[i]) else 0)
  }

  /** The same for columns with a cap whose header and grant are both nothing: their final cap
      of 0 is read as no cap. */
  function StarvedExtra(floor: seq<nat>, natural: seq<nat>, flex: seq<Flex>, caps: seq<nat>): (r: seq<nat>)
    requires |floor| == |natural| == |caps|
    ensures |r| == |natural|
  {
    seq(|natural|, i requires 0 <= i < |natural| =>
      if IsFlexible(flex, i) && !Uncapped(flex, i) && caps[i] == 0 then SaturatingSub(natural[i], floor[i]) else 0)
  }

  lemma UncappedAlone(flex: seq<Flex>, f: Flex)
    requires DistinctFlex(flex) && f in flex && f.cap > 0
    ensures !Uncapped(flex, f.index)
  {
    var j :| 0 <= j < |flex| && flex[j] == f;
    assert forall k :: 0 <= k < |flex| && flex[k].index == f.index ==> k == j;
  }

  /** A column competes exactly if it is flexible, has a cap, and has something to show. */
  lemma CompetesIff(floor: seq<nat>, natural: seq<nat>, flex: seq<Flex>, i: nat)
    requires |floor| == |natural| && DistinctFlex(flex) && i < |natural|
    ensures (exists k :: 0 <= k < |Ranked(floor, natural, flex)| && Ranked(floor, natural, flex)[k].index == i)
      <==> IsFlexible(flex, i) && !Uncapped(flex, i) && natural[i] > 0
  {
    var cs := Ranked(floor, natural, flex);
    RankedSound(floor, natural, flex);
    if k :| 0 <= k < |cs| && cs[k].index == i {
      assert cs[k] in cs;
      ContenderBacked(floor, natural, flex, cs[k]);
      var f :| f in flex && Competes(f, cs[k], floor, natural);
      UncappedAlone(flex, f);
      var j :| 0 <= j < |flex| && flex[j] == f;
    }
    if IsFlexible(flex, i) && !Uncapped(flex, i) && natural[i] > 0 {
      var j :| 0 <= j < |flex| && flex[j].index == i;
      assert flex[j] in flex;
      var c := ContenderExists(floor, natural, flex, flex[j]);
      assert c in cs;
      var k :| 0 <= k < |cs| && cs[k] == c;
    }
  }

  /** Caps and grants of one column. */
  lemma ColumnCap(floor: seq<nat>, natural: seq<nat>, flex: seq<Flex>, terminal: nat, i: nat)
    requires |floor| == |natural| && DistinctFlex(flex) && i < |natural|
    ensures var cs, caps, g := Ranked(floor, natural, flex), FittedCaps(floor, natural, flex, terminal), Granted(floor, natural, flex, terminal);
      && (!IsFlexible(flex, i) ==> caps[i] == natural[i])
      && (forall k :: 0 <= k < |cs| && cs[k].index == i ==> caps[i] == floor[i] + g[i] && g[i] <= Room(cs[k], floor))
      && ((forall k :: 0 <= k < |cs| ==> cs[k].index != i) ==> g[i] == 0 && (IsFlexible(flex, i) ==> caps[i] == 0))
  {
    var shares, rounds, cut := CapsAllot(floor, natural, flex, terminal);
  }

  /** A rendered column is what it was sure to get, its grant, and what a final cap of 0 lets
      it show. */
  lemma Rendered(headers: seq<string>, rows: seq<seq<string>>, flex: seq<Flex>, terminal: nat, i: nat)
    requires DistinctFlex(flex) && i < |headers|
    ensures var floor, natural := Floors(headers), Widths(headers, rows);
      var caps := FittedCaps(floor, natural, flex, terminal);
      Widths(headers, CapRows(rows, caps))[i]
        == Reserved(floor, natural, flex)[i] + Granted(floor, natural, flex, terminal)[i]
           + (ZeroExtra(floor, natural, flex)[i] + StarvedExtra(floor, natural, flex, caps)[i])
  {
    var floor, natural := Floors(headers), Widths(headers, rows);
    var caps := FittedCaps(floor, natural, flex, terminal);
    ColumnWidthBounds(headers[i], rows, i);
    ColumnCap(floor, natural, flex, terminal, i);
    CompetesIff(floor, natural, flex, i);
    var cs := Ranked(floor, natural, flex);
    RankedSound(floor, natural, flex);
    if k :| 0 <= k < |cs| && cs[k].index == i {
      ContenderColumn(headers, rows, caps, i, cs[k], Granted(floor, natural, flex, terminal)[i]);
    } else {
      CappedColumnWidth(headers[i], rows, caps, i);
    }
  }

  lemma ContenderColumn(headers: seq<string>, rows: seq<seq<string>>, caps: seq<nat>, i: nat, c: Contender, grant: nat)
    requires i < |headers| == |caps| && c.index == i && c.want <= Widths(headers, rows)[i]
    requires caps[i] == |headers[i]| + grant && grant <= Room(c, Floors(headers))
    ensures Widths(headers, CapRows(rows, caps))[i] == if caps[i] == 0 then Widths(headers, rows)[i] else caps[i]
  {
    ColumnWidthBounds(headers[i], rows, i);
    CappedColumnWidth(headers[i], rows, caps, i);
  }

  /** The whole fitted table. */
  lemma RenderedTotal(headers: seq<string>, rows: seq<seq<string>>, flex: seq<Flex>, terminal: nat)
    requires DistinctFlex(flex)
    ensures var floor, natural := Floors(headers), Widths(headers, rows);
      var caps := FittedCaps(floor, natural, flex, terminal);
      TotalWidth(Widths(headers, CapRows(rows, caps)))
        == SureWidth(headers, rows, flex) + Held(Ranked(floor, natural, flex), Granted(floor, natural, flex, terminal))
           + Sum(ZeroExtra(floor, natural, flex)) + Sum(StarvedExtra(floor, natural, flex, caps))
  {
    var floor, natural := Floors(headers), Widths(headers, rows);
    var caps, g := FittedCaps(floor, natural, flex, terminal), Granted(floor, natural, flex, terminal);
    var zero, starved := ZeroExtra(floor, natural, flex), StarvedExtra(floor, natural, flex, caps);
    var extra := seq(|headers|, i requires 0 <= i < |headers| => zero[i] + starved[i]);
    forall i | 0 <= i < |headers|
      ensures Widths(headers, CapRows(rows, caps))[i] == Reserved(floor, natural, flex)[i] + g[i] + extra[i]
    {
      Rendered(headers, rows, flex, terminal, i);
    }
    SumThree(Widths(headers, CapRows(rows, caps)), Reserved(floor, natural, flex), g, extra);
    var none := seq(|headers|, i => 0);
    SumZeros(|headers|);
    SumThree(extra, zero, starved, none);
    GrantsHeld(floor, natural, flex, terminal);
  }

  lemma GrantsHeld(floor: seq<nat>, natural: seq<nat>, flex: seq<Flex>, terminal: nat)
    requires |floor| == |natural| && DistinctFlex(flex)
    ensures Sum(Granted(floor, natural, flex, terminal)) == Held(Ranked(floor, natural, flex), Granted(floor, natural, flex, terminal))
  {
    var cs, g := Ranked(floor, natural, flex), Granted(floor, natural, flex, terminal);
    RankedSound(floor, natural, flex);
    forall i | 0 <= i < |g| && forall k :: 0 <= k < |cs| ==> cs[k].index != i
      ensures g[i] == 0
    {
      ColumnCap(floor, natural, flex, terminal, i);
    }
    SumHeld(cs, g);
  }

  // ---------------------------------------------------------------- what is granted in all

  function TotalRoom(cs: seq<Contender>, floor: seq<nat>): nat
    requires InRange(cs, |floor|)
  {
    if cs == [] then 0 else Room(cs[0], floor) + TotalRoom(cs[1..], floor)
  }

  lemma {:induction false} HeldRoom(cs: seq<Contender>, floor: seq<nat>, g: seq<nat>)
    requires InRange(cs, |floor|) && |g| == |floor|
    ensures (forall k :: 0 <= k < |cs| ==> g[cs[k].index] <= Room(cs[k], floor)) ==> Held(cs, g) <= TotalRoom(cs, floor)
    ensures (forall k :: 0 <= k < |cs| ==> g[cs[k].index] == Room(cs[k], floor)) ==> Held(cs, g) == TotalRoom(cs, floor)
  {
    if cs != [] {
      HeldRoom(cs[1..], floor, g);
      assert forall k :: 0 < k < |cs| ==> cs[k] == cs[1..][k - 1];
      assert forall k :: 0 <= k < |cs[1..]| ==> cs[1..][k] == cs[k + 1];
    }
  }

  /** Nothing is wasted and nothing is overspent: the grants come to the whole budget or to all
      that the contenders have room for, whichever is less. */
  lemma GrantedTotal(floor: seq<nat>, natural: seq<nat>, flex: seq<Flex>, terminal: nat)
    requires |floor| == |natural| && DistinctFlex(flex)
    ensures var cs := Ranked(floor, natural, flex);
      Held(cs, Granted(floor, natural, flex, terminal)) == Min(Budget(floor, natural, flex, terminal), TotalRoom(cs, floor))
  {
    var cs, budget := Ranked(floor, natural, flex), Budget(floor, natural, flex, terminal);
    var shares, rounds, cut := CapsAllot(floor, natural, flex, terminal);
    HandedTotal(cs, floor, natural, budget, shares, Granted(floor, natural, flex, terminal), rounds, cut);
  }

  lemma HandedTotal(cs: seq<Contender>, floor: seq<nat>, natural: seq<nat>, budget: nat, shares: seq<nat>, g: seq<nat>, rounds: nat, cut: nat)
    requires Sound(cs, floor, natural) && Shared(cs, floor, budget, shares)
    requires HandedBack(cs, floor, shares, SaturatingSub(budget, Held(cs, shares)), g, rounds, cut)
    ensures Held(cs, g) == Min(budget, TotalRoom(cs, floor))
  {
    SharesWithinBudget(cs, floor, natural, budget, shares);
    GrantsBelowRoom(cs, floor, natural, shares, g, rounds, cut);
    HeldRoom(cs, floor, g);
  }

  lemma GrantsBelowRoom(cs: seq<Contender>, floor: seq<nat>, natural: seq<nat>, shares: seq<nat>, g: seq<nat>, rounds: nat, cut: nat)
    requires Sound(cs, floor, natural) && Gained(cs, floor, shares, g, rounds, cut)
    requires forall k :: 0 <= k < |cs| ==> shares[cs[k].index] <= Room(cs[k], floor)
    ensures forall k :: 0 <= k < |cs| ==> g[cs[k].index] <= Room(cs[k], floor)
  {
  }

  // ---------------------------------------------------------------- who is left with nothing

  /** How many of the first `k` contenders have room beyond their shares. */
  function Hungry(cs: seq<Contender>, floor: seq<nat>, shares: seq<nat>, k: nat): nat
    requires k <= |cs| && InRange(cs, |floor|) && |shares| == |floor|
  {
    if k == 0 then 0
    else (if shares[cs[0].index] < Room(cs[0], floor) then 1 else 0) + Hungry(cs[1..], floor, shares, k - 1)
  }

  /** The k-th contender has no share, and what is left does not go round to it. */
  predicate GoesEmpty(cs: seq<Contender>, floor: seq<nat>, budget: nat, k: nat)
    requires k < |cs| && InRange(cs, |floor|)
  {
    var shares := Shares(cs, floor, budget, |cs|);
    Share(cs, floor, budget, k) == 0 && SaturatingSub(budget, Held(cs, shares)) <= Hungry(cs, floor, shares, k)
  }

  /** Some contender without a header goes empty. */
  predicate Starves(floor: seq<nat>, natural: seq<nat>, flex: seq<Flex>, terminal: nat)
    requires |floor| == |natural|
  {
    var cs := Ranked(floor, natural, flex);
    exists k :: 0 <= k < |cs| && floor[cs[k].index] == 0 && GoesEmpty(cs, floor, Budget(floor, natural, flex, terminal), k)
  }

  /** If only contenders before the cut gain, one each at most, they gain no more than the
      hungry ones among them. */
  lemma {:induction false} GainAtMost(cs: seq<Contender>, floor: seq<nat>, start: seq<nat>, end: seq<nat>, cut: nat)
    requires cut <= |cs| && InRange(cs, |floor|) && |start| == |end| == |floor|
    requires forall j :: 0 <= j < |cs| ==>
      end[cs[j].index] <= start[cs[j].index] + (if j < cut && start[cs[j].index] < Room(cs[j], floor) then 1 else 0)
    ensures Held(cs, end) <= Held(cs, start) + Hungry(cs, floor, start, cut)
  {
    if cs != [] {
      assert forall j :: 0 <= j < |cs[1..]| ==> cs[1..][j] == cs[j + 1];
      GainAtMost(cs[1..], floor, start, end, if cut == 0 then 0 else cut - 1);
    }
  }

  /** If every contender keeps what it had and the hungry ones up to the k-th gain, they gain
      as many characters as they are. */
  lemma {:induction false} GainAtLeast(cs: seq<Contender>, floor: seq<nat>, start: seq<nat>, end: seq<nat>, k: nat)
    requires k <= |cs| && InRange(cs, |floor|) && |start| == |end| == |floor|
    requires forall j :: 0 <= j < |cs| ==>
      end[cs[j].index] >= start[cs[j].index] + (if j < k && start[cs[j].index] < Room(cs[j], floor) then 1 else 0)
    ensures Held(cs, end) >= Held(cs, start) + Hungry(cs, floor, start, k)
  {
    if cs != [] {
      assert forall j :: 0 <= j < |cs[1..]| ==> cs[1..][j] == cs[j + 1];
      GainAtLeast(cs[1..], floor, start, end, if k == 0 then 0 else k - 1);
    }
  }

  lemma {:induction false} HungryGrows(cs: seq<Contender>, floor: seq<nat>, shares: seq<nat>, a: nat, b: nat)
    requires a <= b <= |cs| && InRange(cs, |floor|) && |shares| == |floor|
    ensures Hungry(cs, floor, shares, a) <= Hungry(cs, floor, shares, b)
    ensures a < b && shares[cs[a].index] < Room(cs[a], floor) ==> Hungry(cs, floor, shares, a) < Hungry(cs, floor, shares, b)
  {
    if a > 0 {
      HungryGrows(cs[1..], floor, shares, a - 1, b - 1);
    }
  }

  lemma EmptyThen(cs: seq<Contender>, floor: seq<nat>, natural: seq<nat>, shares: seq<nat>, left: nat, end: seq<nat>, rounds: nat, cut: nat, k: nat)
    requires Sound(cs, floor, natural) && |shares| == |floor| && HandedBack(cs, floor, shares, left, end, rounds, cut)
    requires k < |cs| && Room(cs[k], floor) > 0 && end[cs[k].index] == 0
    requires forall j :: 0 <= j < |cs| ==> shares[cs[j].index] <= Room(cs[j], floor)
    ensures shares[cs[k].index] == 0 && left <= Hungry(cs, floor, shares, k)
  {
    assert rounds == 0 && cut <= k;
    var last := if cut <= |cs| then cut else |cs|;
    GainAtMost(cs, floor, shares, end, last);
    HungryGrows(cs, floor, shares, last, k);
  }

  lemma GainThen(cs: seq<Contender>, floor: seq<nat>, natural: seq<nat>, shares: seq<nat>, left: nat, end: seq<nat>, rounds: nat, cut: nat, k: nat)
    requires Sound(cs, floor, natural) && |shares| == |floor| && HandedBack(cs, floor, shares, left, end, rounds, cut)
    requires k < |cs| && end[cs[k].index] > 0 && shares[cs[k].index] == 0
    ensures left > Hungry(cs, floor, shares, k)
  {
    assert rounds > 0 || k < cut;
    assert 0 < Room(cs[k], floor);
    GainAtLeast(cs, floor, shares, end, k + 1);
    HungryGrows(cs, floor, shares, k, k + 1);
  }

  /** Of the contenders with room, exactly those that go empty are granted nothing. */
  lemma EmptyIff(cs: seq<Contender>, floor: seq<nat>, natural: seq<nat>, shares: seq<nat>, left: nat, end: seq<nat>, rounds: nat, cut: nat, k: nat)
    requires Sound(cs, floor, natural) && |shares| == |floor| && HandedBack(cs, floor, shares, left, end, rounds, cut)
    requires k < |cs| && Room(cs[k], floor) > 0 && forall j :: 0 <= j < |cs| ==> shares[cs[j].index] <= Room(cs[j], floor)
    ensures end[cs[k].index] == 0 <==> shares[cs[k].index] == 0 && left <= Hungry(cs, floor, shares, k)
  {
    if end[cs[k].index] == 0 {
      EmptyThen(cs, floor, natural, shares, left, end, rounds, cut, k);
    } else if shares[cs[k].index] == 0 {
      GainThen(cs, floor, natural, shares, left, end, rounds, cut, k);
    }
  }

  lemma ContenderWants(floor: seq<nat>, natural: seq<nat>, flex: seq<Flex>, k: nat)
    requires |floor| == |natural| && DistinctFlex(flex) && k < |Ranked(floor, natural, flex)|
    ensures var c := Ranked(floor, natural, flex)[k];
      natural[c.index] > 0 && c.want > 0 && IsFlexible(flex, c.index) && !Uncapped(flex, c.index)
  {
    var cs := Ranked(floor, natural, flex);
    RankedSound(floor, natural, flex);
    assert cs[k] in cs;
    ContenderBacked(floor, natural, flex, cs[k]);
    CompetesIff(floor, natural, flex, cs[k].index);
  }

  /** A column is left with a final cap of 0 although it has one and something to show exactly
      if it is a contender without a header that goes empty. */
  lemma StarvedIff(floor: seq<nat>, natural: seq<nat>, flex: seq<Flex>, terminal: nat)
    requires |floor| == |natural| && DistinctFlex(flex) && forall i :: 0 <= i < |floor| ==> floor[i] <= natural[i]
    ensures Sum(StarvedExtra(floor, natural, flex, FittedCaps(floor, natural, flex, terminal))) > 0
      <==> Starves(floor, natural, flex, terminal)
  {
    var caps := FittedCaps(floor, natural, flex, terminal);
    var cs, extra := Ranked(floor, natural, flex), StarvedExtra(floor, natural, flex, caps);
    SumZeroIff(extra);
    if Starves(floor, natural, flex, terminal) {
      var k :| 0 <= k < |cs| && floor[cs[k].index] == 0 && GoesEmpty(cs, floor, Budget(floor, natural, flex, terminal), k);
      StarvedContender(floor, natural, flex, terminal, k);
      assert extra[cs[k].index] > 0;
    }
    if i :| 0 <= i < |extra| && extra[i] > 0 {
      CompetesIff(floor, natural, flex, i);
      var k :| 0 <= k < |cs| && cs[k].index == i;
      StarvedContender(floor, natural, flex, terminal, k);
    }
  }

  lemma StarvedContender(floor: seq<nat>, natural: seq<nat>, flex: seq<Flex>, terminal: nat, k: nat)
    requires |floor| == |natural| && DistinctFlex(flex) && k < |Ranked(floor, natural, flex)|
    ensures var cs := Ranked(floor, natural, flex);
      var i := cs[k].index;
      && natural[i] > 0 && IsFlexible(flex, i) && !Uncapped(flex, i)
      && (FittedCaps(floor, natural, flex, terminal)[i] == 0
          <==> floor[i] == 0 && GoesEmpty(cs, floor, Budget(floor, natural, flex, terminal), k))
  {
    var cs := Ranked(floor, natural, flex);
    ContenderWants(floor, natural, flex, k);
    ColumnCap(floor, natural, flex, terminal, cs[k].index);
    if floor[cs[k].index] == 0 {
      EmptyGrant(floor, natural, flex, terminal, k);
    }
  }

  lemma EmptyGrant(floor: seq<nat>, natural: seq<nat>, flex: seq<Flex>, terminal: nat, k: nat)
    requires |floor| == |natural| && DistinctFlex(flex) && k < |Ranked(floor, natural, flex)|
    requires Room(Ranked(floor, natural, flex)[k], floor) > 0
    ensures var cs := Ranked(floor, natural, flex);
      Granted(floor, natural, flex, terminal)[cs[k].index] == 0 <==> GoesEmpty(cs, floor, Budget(floor, natural, flex, terminal), k)
  {
    var cs := Ranked(floor, natural, flex);
    var shares, left, rounds, cut := HandBackFacts(floor, natural, flex, terminal);
    EmptyIff(cs, floor, natural, shares, left, Granted(floor, natural, flex, terminal), rounds, cut, k);
  }

  /** The grants come from the shares and what they leave. */
  lemma HandBackFacts(floor: seq<nat>, natural: seq<nat>, flex: seq<Flex>, terminal: nat)
    returns (shares: seq<nat>, left: nat, rounds: nat, cut: nat)
    requires |floor| == |natural| && DistinctFlex(flex)
    ensures var cs, budget := Ranked(floor, natural, flex), Budget(floor, natural, flex, terminal);
      && Sound(cs, floor, natural) && shares == Shares(cs, floor, budget, |cs|) && left == SaturatingSub(budget, Held(cs, shares))
      && (forall j :: 0 <= j < |cs| ==> shares[cs[j].index] == Share(cs, floor, budget, j))
      && HandedBack(cs, floor, shares, left, Granted(floor, natural, flex, terminal), rounds, cut)
  {
    var cs, budget := Ranked(floor, natural, flex), Budget(floor, natural, flex, terminal);
    RankedSound(floor, natural, flex);
    shares := Shares(cs, floor, budget, |cs|);
    SharesUpTo(cs, floor, natural, budget, |cs|);
    left := SaturatingSub(budget, Held(cs, shares));
    rounds, cut := HandedMeaning(cs, floor, natural, shares, left);
  }

  // ---------------------------------------------------------------- within the terminal

  /** A contender's room, column by column. */
  function RoomAt(cs: seq<Contender>, floor: seq<nat>, i: nat): nat
    requires InRange(cs, |floor|)
  {
    if cs == [] then 0 else if cs[0].index == i then Room(cs[0], floor) else RoomAt(cs[1..], floor, i)
  }

  lemma {:induction false} RoomOf(cs: seq<Contender>, floor: seq<nat>, i: nat)
    requires InRange(cs, |floor|) && Distinct(cs)
    ensures forall k :: 0 <= k < |cs| && cs[k].index == i ==> RoomAt(cs, floor, i) == Room(cs[k], floor)
    ensures (forall k :: 0 <= k < |cs| ==> cs[k].index != i) ==> RoomAt(cs, floor, i) == 0
  {
    if cs != [] {
      RoomOf(cs[1..], floor, i);
      assert forall k :: 0 < k < |cs| ==> cs[k] == cs[1..][k - 1];
      assert forall k :: 0 <= k < |cs[1..]| ==> cs[1..][k] == cs[k + 1];
    }
  }

  /** Every cap covers what its column would naturally take beyond its header. */
  predicate CapsCover(floor: seq<nat>, natural: seq<nat>, flex: seq<Flex>)
    requires |floor| == |natural|
  {
    forall f :: f in flex && f.cap > 0 && f.index < |natural| ==> natural[f.index] <= SaturatingAdd(floor[f.index], f.cap, 0, USIZE_MAX)
  }

  /** The natural table has space for everything any column could ask for, and no more if the
      caps cover what the columns have. */
  lemma NaturalCovers(headers: seq<string>, rows: seq<seq<string>>, flex: seq<Flex>)
    requires DistinctFlex(flex)
    ensures var floor, natural := Floors(headers), Widths(headers, rows);
      SureWidth(headers, rows, flex) + TotalRoom(Ranked(floor, natural, flex), floor) + Sum(ZeroExtra(floor, natural, flex))
        <= TotalWidth(natural)
    ensures var floor, natural := Floors(headers), Widths(headers, rows);
      CapsCover(floor, natural, flex) ==>
        SureWidth(headers, rows, flex) + TotalRoom(Ranked(floor, natural, flex), floor) + Sum(ZeroExtra(floor, natural, flex))
          == TotalWidth(natural)
  {
    var floor, natural := Floors(headers), Widths(headers, rows);
    var cs := Ranked(floor, natural, flex);
    RankedSound(floor, natural, flex);
    var room := seq(|headers|, i requires 0 <= i < |headers| => RoomAt(cs, floor, i));
    forall i | 0 <= i < |headers|
      ensures forall k :: 0 <= k < |cs| && cs[k].index == i ==> room[i] == Room(cs[k], floor)
      ensures (forall k :: 0 <= k < |cs| ==> cs[k].index != i) ==> room[i] == 0
    {
      RoomOf(cs, floor, i);
    }
    SumHeld(cs, room);
    HeldRoom(cs, floor, room);
    var base, zero := Reserved(floor, natural, flex), ZeroExtra(floor, natural, flex);
    var all := seq(|headers|, i requires 0 <= i < |headers| => base[i] + room[i] + zero[i]);
    forall i | 0 <= i < |headers|
      ensures all[i] <= natural[i] && (CapsCover(floor, natural, flex) ==> all[i] == natural[i])
    {
      ColumnCovers(headers, rows, flex, i, room[i]);
    }
    SumThree(all, base, room, zero);
    SumMonotone(all, natural);
    if CapsCover(floor, natural, flex) {
      SumMonotone(natural, all);
    }
  }

  lemma ColumnCovers(headers: seq<string>, rows: seq<seq<string>>, flex: seq<Flex>, i: nat, room: nat)
    requires DistinctFlex(flex) && i < |headers|
    requires var cs := Ranked(Floors(headers), Widths(headers, rows), flex);
      && (forall k :: 0 <= k < |cs| && cs[k].index == i ==> room == Room(cs[k], Floors(headers)))
      && ((forall k :: 0 <= k < |cs| ==> cs[k].index != i) ==> room == 0)
    ensures var floor, natural := Floors(headers), Widths(headers, rows);
      var sum := Reserved(floor, natural, flex)[i] + room + ZeroExtra(floor, natural, flex)[i];
      sum <= natural[i] && (CapsCover(floor, natural, flex) ==> sum == natural[i])
  {
    var floor, natural := Floors(headers), Widths(headers, rows);
    var cs := Ranked(floor, natural, flex);
    ColumnWidthBounds(headers[i], rows, i);
    CompetesIff(floor, natural, flex, i);
    RankedSound(floor, natural, flex);
    if k :| 0 <= k < |cs| && cs[k].index == i {
      assert cs[k] in cs && cs[k].want <= natural[i];
      ContenderBacked(floor, natural, flex, cs[k]);
    }
  }

  /** The columns with a cap of 0 leave the contenders room for what they show. */
  predicate ZeroCapsCovered(floor: seq<nat>, natural: seq<nat>, flex: seq<Flex>, terminal: nat)
    requires |floor| == |natural|
  {
    TotalRoom(Ranked(floor, natural, flex), floor) + Sum(ZeroExtra(floor, natural, flex)) <= Budget(floor, natural, flex, terminal)
  }

  /** When a table with rows is within the terminal: its sure width is, and either no column
      with a cap of 0 shows more than its header and no column without a header goes empty, or
      there is space for everything at once. All of it can be worked out before the call. */
  ghost predicate FitsTerminal(headers: seq<string>, rows: seq<seq<string>>, flex: seq<Flex>, terminal: nat) {
    var floor, natural := Floors(headers), Widths(headers, rows);
    && SureWidth(headers, rows, flex) <= terminal
    && ((Sum(ZeroExtra(floor, natural, flex)) == 0 && !Starves(floor, natural, flex, terminal))
        || ZeroCapsCovered(floor, natural, flex, terminal))
  }

  /** The exact width of the fitted table decides it. */
  lemma FittedTotalIff(headers: seq<string>, rows: seq<seq<string>>, flex: seq<Flex>, terminal: nat)
    requires DistinctFlex(flex)
    ensures var caps := FittedCaps(Floors(headers), Widths(headers, rows), flex, terminal);
      TotalWidth(Widths(headers, CapRows(rows, caps))) <= terminal <==> FitsTerminal(headers, rows, flex, terminal)
  {
    var floor, natural := Floors(headers), Widths(headers, rows);
    var caps := FittedCaps(floor, natural, flex, terminal);
    RenderedTotal(headers, rows, flex, terminal);
    GrantedTotal(floor, natural, flex, terminal);
    HeadersNeeded(headers, rows);
    StarvedIff(floor, natural, flex, terminal);
    if Starves(floor, natural, flex, terminal) {
      StarvedSpendsAll(floor, natural, flex, terminal);
    }
  }

  /** Where a contender goes empty, nothing of the budget is left, and more was wanted. */
  lemma StarvedSpendsAll(floor: seq<nat>, natural: seq<nat>, flex: seq<Flex>, terminal: nat)
    requires |floor| == |natural| && DistinctFlex(flex) && Starves(floor, natural, flex, terminal)
    ensures Budget(floor, natural, flex, terminal) < TotalRoom(Ranked(floor, natural, flex), floor)
  {
    var cs := Ranked(floor, natural, flex);
    var k :| 0 <= k < |cs| && floor[cs[k].index] == 0 && GoesEmpty(cs, floor, Budget(floor, natural, flex, terminal), k);
    EmptyHasRoom(floor, natural, flex, terminal, k);
    GrantsWithinRoom(floor, natural, flex, terminal);
    LessThanRoom(cs, floor, Granted(floor, natural, flex, terminal), k);
    GrantedTotal(floor, natural, flex, terminal);
  }

  lemma EmptyHasRoom(floor: seq<nat>, natural: seq<nat>, flex: seq<Flex>, terminal: nat, k: nat)
    requires |floor| == |natural| && DistinctFlex(flex) && k < |Ranked(floor, natural, flex)|
    requires var cs := Ranked(floor, natural, flex);
      floor[cs[k].index] == 0 && GoesEmpty(cs, floor, Budget(floor, natural, flex, terminal), k)
    ensures var cs := Ranked(floor, natural, flex);
      Granted(floor, natural, flex, terminal)[cs[k].index] == 0 < Room(cs[k], floor)
  {
    ContenderWants(floor, natural, flex, k);
    EmptyGrant(floor, natural, flex, terminal, k);
  }

  lemma GrantsWithinRoom(floor: seq<nat>, natural: seq<nat>, flex: seq<Flex>, terminal: nat)
    requires |floor| == |natural| && DistinctFlex(flex)
    ensures var cs, g := Ranked(floor, natural, flex), Granted(floor, natural, flex, terminal);
      forall j :: 0 <= j < |cs| ==> g[cs[j].index] <= Room(cs[j], floor)
  {
    var cs := Ranked(floor, natural, flex);
    var shares, left, rounds, cut := HandBackFacts(floor, natural, flex, terminal);
    GrantsBelowRoom(cs, floor, natural, shares, Granted(floor, natural, flex, terminal), rounds, cut);
  }

  lemma {:induction false} LessThanRoom(cs: seq<Contender>, floor: seq<nat>, g: seq<nat>, k: nat)
    requires InRange(cs, |floor|) && |g| == |floor| && k < |cs| && g[cs[k].index] < Room(cs[k], floor)
    requires forall j :: 0 <= j < |cs| ==> g[cs[j].index] <= Room(cs[j], floor)
    ensures Held(cs, g) < TotalRoom(cs, floor)
  {
    assert forall j :: 0 <= j < |cs[1..]| ==> cs[1..][j] == cs[j + 1];
    if k == 0 {
      HeldRoom(cs[1..], floor, g);
    } else {
      LessThanRoom(cs[1..], floor, g, k - 1);
    }
  }

  /** What is printed is never wider than the terminal exactly when there are no rows or the
      table fits it, for every choice of flexible columns that names none twice: header, rule
      and rows, coloured or not. */
  lemma NeverWiderIff(style: Style, headers: seq<string>, rows: seq<seq<string>>, flex: seq<Flex>, terminal: nat)
    requires DistinctFlex(flex) && NoNewlines(headers) && forall j :: 0 <= j < |rows| ==> NoNewlines(rows[j])
    ensures LinesFit(FittedText(style, headers, rows, flex, Some(terminal)), terminal)
      <==> rows == [] || FitsTerminal(headers, rows, flex, terminal)
  {
    var natural, caps := Widths(headers, rows), CapsFor(headers, rows, flex, Some(terminal));
    PrintedWithinIff(style, headers, rows, caps, terminal);
    if TotalWidth(natural) <= terminal {
      NoCaps(rows);
      NaturalCovers(headers, rows, flex);
    } else {
      FittedTotalIff(headers, rows, flex, terminal);
    }
  }

  lemma NoCaps(rows: seq<seq<string>>)
    ensures CapRows(rows, []) == rows
  {
    forall k | 0 <= k < |rows|
      ensures CapRows(rows, [])[k] == rows[k]
    {
    }
  }

  /** What the callers of `table_fitted` respect: each flexible column of the table is named
      once, has a positive cap, and has a header to fall back on. */
  predicate FlexOk(headers: seq<string>, flex: seq<Flex>) {
    && DistinctFlex(flex)
    && forall f :: f in flex && f.index < |headers| ==> f.cap > 0 && headers[f.index] != ""
  }

  lemma FlexOkMeaning(headers: seq<string>, rows: seq<seq<string>>, flex: seq<Flex>, terminal: nat)
    requires FlexOk(headers, flex)
    ensures var floor, natural := Floors(headers), Widths(headers, rows);
      Sum(ZeroExtra(floor, natural, flex)) == 0 && !Starves(floor, natural, flex, terminal)
  {
    var floor, natural := Floors(headers), Widths(headers, rows);
    var cs := Ranked(floor, natural, flex);
    SumZeroIff(ZeroExtra(floor, natural, flex));
    forall i | 0 <= i < |headers|
      ensures !Uncapped(flex, i)
    {
      assert forall k :: 0 <= k < |flex| ==> flex[k] in flex;
    }
    forall k | 0 <= k < |cs|
      ensures floor[cs[k].index] > 0
    {
      ContenderWants(floor, natural, flex, k);
      var j :| 0 <= j < |flex| && flex[j].index == cs[k].index;
      assert flex[j] in flex;
    }
  }

  /** For such callers the promise is kept exactly when the headers of the flexible columns,
      the other columns and the gaps fit. */
  lemma CallersFitIff(headers: seq<string>, rows: seq<seq<string>>, flex: seq<Flex>, terminal: nat)
    requires FlexOk(headers, flex)
    ensures FitsTerminal(headers, rows, flex, terminal) <==> SureWidth(headers, rows, flex) <= terminal
  {
    FlexOkMeaning(headers, rows, flex, terminal);
  }

  /** Nothing is wasted: either the whole terminal is taken or every contender shows all it
      asked for. */
  lemma NothingWasted(headers: seq<string>, rows: seq<seq<string>>, flex: seq<Flex>, terminal: nat, k: nat)
    requires DistinctFlex(flex) && SureWidth(headers, rows, flex) <= terminal
    requires k < |Ranked(Floors(headers), Widths(headers, rows), flex)|
    ensures var floor, natural := Floors(headers), Widths(headers, rows);
      var cs, caps := Ranked(floor, natural, flex), FittedCaps(floor, natural, flex, terminal);
      TotalWidth(Widths(headers, CapRows(rows, caps))) >= terminal || caps[cs[k].index] == Max(floor[cs[k].index], cs[k].want)
  {
    var floor, natural := Floors(headers), Widths(headers, rows);
    var cs, g := Ranked(floor, natural, flex), Granted(floor, natural, flex, terminal);
    RenderedTotal(headers, rows, flex, terminal);
    GrantedTotal(floor, natural, flex, terminal);
    RankedSound(floor, natural, flex);
    forall j | 0 <= j < |cs|
      ensures g[cs[j].index] <= Room(cs[j], floor) && FittedCaps(floor, natural, flex, terminal)[cs[j].index] == floor[cs[j].index] + g[cs[j].index]
    {
      ColumnCap(floor, natural, flex, terminal, cs[j].index);
    }
    if g[cs[k].index] < Room(cs[k], floor) {
      LessThanRoom(cs, floor, g, k);
    }
  }

  lemma FilledTotal(headers: seq<string>, rows: seq<seq<string>>, flex: seq<Flex>, terminal: nat)
    requires FlexOk(headers, flex) && CapsCover(Floors(headers), Widths(headers, rows), flex)
    requires SureWidth(headers, rows, flex) <= terminal < TotalWidth(Widths(headers, rows))
    ensures TotalWidth(Widths(headers, CapRows(rows, FittedCaps(Floors(headers), Widths(headers, rows), flex, terminal)))) == terminal
  {
    var floor, natural := Floors(headers), Widths(headers, rows);
    FlexOkMeaning(headers, rows, flex, terminal);
    RenderedTotal(headers, rows, flex, terminal);
    GrantedTotal(floor, natural, flex, terminal);
    NaturalCovers(headers, rows, flex);
    HeadersNeeded(headers, rows);
    StarvedIff(floor, natural, flex, terminal);
  }

  lemma HeadersNeeded(headers: seq<string>, rows: seq<seq<string>>)
    ensures forall i :: 0 <= i < |headers| ==> Floors(headers)[i] <= Widths(headers, rows)[i]
  {
    forall i | 0 <= i < |headers|
      ensures Floors(headers)[i] <= Widths(headers, rows)[i]
    {
      ColumnWidthBounds(headers[i], rows, i);
    }
  }

  /** If the natural table does not fit and every cap covers what its column would naturally
      take beyond its header, the rule that is printed fills the terminal exactly. */
  lemma FillsTheTerminal(style: Style, headers: seq<string>, rows: seq<seq<string>>, flex: seq<Flex>, terminal: nat)
    requires FlexOk(headers, flex) && CapsCover(Floors(headers), Widths(headers, rows), flex)
    requires 0 < terminal && SureWidth(headers, rows, flex) <= terminal < TotalWidth(Widths(headers, rows))
    requires rows != [] && NoNewlines(headers)
    ensures RuleLine(style, terminal) in Split(FittedText(style, headers, rows, flex, Some(terminal)), '\n')
    ensures Visible(RuleLine(style, terminal)) == terminal
  {
    FilledTotal(headers, rows, flex, terminal);
    RuleIsALine(style, headers, rows, FittedCaps(Floors(headers), Widths(headers, rows), flex, terminal));
    RuleLineWidth(style, terminal);
  }

  /** A flexible column with a cap of 0 does not compete, is left with a cap of 0, and is
      therefore not capped at all. */
  lemma ZeroCapIsNoCap(headers: seq<string>, rows: seq<seq<string>>, flex: seq<Flex>, terminal: nat, i: nat)
    requires DistinctFlex(flex) && i < |headers| && Uncapped(flex, i)
    ensures Widths(headers, CapRows(rows, FittedCaps(Floors(headers), Widths(headers, rows), flex, terminal)))[i]
         == Widths(headers, rows)[i]
  {
    var floor, natural := Floors(headers), Widths(headers, rows);
    var caps := FittedCaps(floor, natural, flex, terminal);
    CompetesIff(floor, natural, flex, i);
    ColumnCap(floor, natural, flex, terminal, i);
    assert IsFlexible(flex, i);
    CappedColumnWidth(headers[i], rows, caps, i);
  }
}
