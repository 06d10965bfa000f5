/** Who comes first when a table's width is shared, and in what proportion. */
module FittingOrder {
  import opened Text
  import opened Numbers
  import opened Table
  import opened Fitting
  import opened FittingProperties

  // ---------------------------------------------------------------- the order

  /** The contenders with this want, in their order. */
  function OfWant(cs: seq<Contender>, want: nat): seq<Contender> {
    if cs == [] then []
    else (if cs[0].want == want then [cs[0]] else []) + OfWant(cs[1..], want)
  }

  predicate Falling(cs: seq<Contender>) {
    forall j, k :: 0 <= j < k < |cs| ==> cs[j].want >= cs[k].want
  }

  lemma FallingCons(c: Contender, rest: seq<Contender>)
    requires Falling(rest) && forall x :: x in rest ==> c.want >= x.want
    ensures Falling([c] + rest)
  {
    assert forall k :: 0 <= k < |rest| ==> rest[k] in rest;
  }

  lemma {:induction false} InsertFalling(c: Contender, cs: seq<Contender>)
    requires Falling(cs)
    ensures Falling(InsertByWant(c, cs))
    ensures forall x :: x in InsertByWant(c, cs) ==> x == c || x in cs
  {
    if cs != [] && c.want < cs[0].want {
      InsertFalling(c, cs[1..]);
      FallingCons(cs[0], InsertByWant(c, cs[1..]));
    }
  }

  lemma OfWantCons(c: Contender, rest: seq<Contender>, want: nat)
    ensures OfWant([c] + rest, want) == (if c.want == want then [c] else []) + OfWant(rest, want)
  {
    assert ([c] + rest)[1..] == rest;
  }

  lemma {:induction false} InsertOfWant(c: Contender, cs: seq<Contender>, want: nat)
    ensures OfWant(InsertByWant(c, cs), want) == (if c.want == want then [c] else []) + OfWant(cs, want)
  {
    if cs == [] || c.want >= cs[0].want {
      OfWantCons(c, cs, want);
    } else {
      InsertOfWant(c, cs[1..], want);
      OfWantCons(cs[0], InsertByWant(c, cs[1..]), want);
      if cs[0].want == want {
        assert [] + OfWant(cs[1..], want) == OfWant(cs[1..], want);
        assert [] + OfWant(cs, want) == OfWant(cs, want);
      }
    }
  }

  lemma {:induction false} SortedByWant(cs: seq<Contender>, want: nat)
    ensures Falling(SortByWant(cs)) && OfWant(SortByWant(cs), want) == OfWant(cs, want)
  {
    if cs != [] {
      SortedByWant(cs[1..], want);
      InsertFalling(cs[0], SortByWant(cs[1..]));
      InsertOfWant(cs[0], SortByWant(cs[1..]), want);
    }
  }

  /** The contenders are ranked by falling want, none is lost or added, and equal ones stay in
      the order in which the caller named them. */
  lemma RankedSorted(floor: seq<nat>, natural: seq<nat>, flex: seq<Flex>)
    requires |floor| == |natural|
    ensures Falling(Ranked(floor, natural, flex))
    ensures forall want :: OfWant(Ranked(floor, natural, flex), want) == OfWant(Contenders(floor, natural, flex), want)
  {
    SortedByWant(Contenders(floor, natural, flex), 0);
    forall want: nat
      ensures OfWant(Ranked(floor, natural, flex), want) == OfWant(Contenders(floor, natural, flex), want)
    {
      SortedByWant(Contenders(floor, natural, flex), want);
    }
  }

  // ---------------------------------------------------------------- the proportion

  /** The smallest number that every contender could have of the whole demand. */
  ghost predicate IsEven(cs: seq<Contender>, even: nat) {
    |cs| * even >= TotalWant(cs) && (even > 0 ==> |cs| * (even - 1) < TotalWant(cs))
  }

  lemma EvenMeaning(cs: seq<Contender>)
    requires cs != []
    ensures IsEven(cs, Even(cs))
  {
    CeilingMeaning(TotalWant(cs), |cs|);
  }

  lemma CeilingMeaning(total: nat, n: nat)
    requires n > 0
    ensures var q := (total + n - 1) / n; n * q >= total && (q > 0 ==> n * (q - 1) < total)
  {
    var q, rest := (total + n - 1) / n, (total + n - 1) % n;
    assert n * q + rest == total + n - 1;
    assert n * (q - 1) == n * q - n;
  }

  /** What the k-th contender counts for: its want, but no less than the even part. */
  function Counts(cs: seq<Contender>, even: nat, k: nat): nat
    requires k < |cs|
  {
    if cs[k].want < even then even else cs[k].want
  }

  function TotalCounts(cs: seq<Contender>, even: nat, k: nat): nat
    requires k <= |cs|
  {
    if k == 0 then 0 else TotalCounts(cs, even, k - 1) + Counts(cs, even, k - 1)
  }

  lemma {:induction false} PoolSplit(cs: seq<Contender>, even: nat, k: nat)
    requires k <= |cs|
    ensures Pool(cs, even) == TotalCounts(cs, even, k) + Pool(cs[k..], even)
  {
    if k == 0 {
      assert cs[0..] == cs;
    } else {
      PoolSplit(cs, even, k - 1);
      assert cs[k - 1..][0] == cs[k - 1] && cs[k - 1..][1..] == cs[k..];
    }
  }

  /** Nothing the shares are computed from leaves the range of the source's numbers. */
  ghost predicate InRangeOfUsize(cs: seq<Contender>, budget: nat) {
    forall k :: 0 <= k < |cs| ==> budget * Counts(cs, Even(cs), k) <= USIZE_MAX
  }

  /** A share is its part of the budget, rounded down: as the contender's count is to all of
      them. */
  lemma ShareIsProportional(cs: seq<Contender>, budget: nat, k: nat)
    requires k < |cs| && InRangeOfUsize(cs, budget) && TotalCounts(cs, Even(cs), |cs|) > 0
    ensures IsEven(cs, Even(cs))
    ensures var share, all := Proportion(cs, budget, k), TotalCounts(cs, Even(cs), |cs|);
      share * all <= budget * Counts(cs, Even(cs), k) < (share + 1) * all
  {
    EvenMeaning(cs);
    ProportionIs(cs, budget, k);
    RoundedDown(budget * Counts(cs, Even(cs), k), TotalCounts(cs, Even(cs), |cs|));
  }

  lemma ProportionIs(cs: seq<Contender>, budget: nat, k: nat)
    requires k < |cs| && InRangeOfUsize(cs, budget) && TotalCounts(cs, Even(cs), |cs|) > 0
    ensures Proportion(cs, budget, k) == (budget * Counts(cs, Even(cs), k)) / TotalCounts(cs, Even(cs), |cs|)
  {
    PoolSplit(cs, Even(cs), |cs|);
    assert cs[|cs|..] == [];
    assert budget * Counts(cs, Even(cs), k) <= USIZE_MAX;
  }

  lemma RoundedDown(x: nat, n: nat)
    requires n > 0
    ensures (x / n) * n <= x < (x / n + 1) * n
  {
  }

  /** A larger want never gets a smaller share, and wants up to the even part get the same. */
  lemma SharesFollowWants(cs: seq<Contender>, budget: nat, j: nat, k: nat)
    requires j < |cs| && k < |cs| && cs[j].want >= cs[k].want
    ensures Proportion(cs, budget, j) >= Proportion(cs, budget, k)
    ensures cs[j].want <= Even(cs) ==> Proportion(cs, budget, j) == Proportion(cs, budget, k)
  {
    var even := Even(cs);
    var pool := Pool(cs, even);
    if pool > 0 {
      MoreTimes(budget, Weight(cs[k], even), Weight(cs[j], even));
      MoreParts(Min(budget * Weight(cs[k], even), USIZE_MAX), Min(budget * Weight(cs[j], even), USIZE_MAX), pool);
    }
  }

  lemma MoreTimes(budget: nat, v: nat, w: nat)
    requires v <= w
    ensures budget * v <= budget * w
  {
  }

  lemma LessTimes(x: nat, y: nat, n: nat)
    requires x * n < y * n
    ensures x < y
  {
  }

  lemma MoreQuotients(a: nat, b: nat, n: nat, q: nat, r: nat)
    requires q * n <= a <= b < (r + 1) * n
    ensures q <= r
  {
    LessTimes(q, r + 1, n);
  }

  lemma MoreParts(a: nat, b: nat, n: nat)
    requires n > 0 && a <= b
    ensures a / n <= b / n
  {
    var q, r := a / n, b / n;
    assert q * n <= a by {
      RoundedDown(a, n);
    }
    assert b < (r + 1) * n by {
      RoundedDown(b, n);
    }
    MoreQuotients(a, b, n, q, r);
  }

  /** Every contender is granted its share, as far as it can use that, and of what is then left
      one character in every whole round while it can use it, and one more if it comes before
      the cut in the last. How many rounds there are follows from what there is to give
      (`GrantedTotal`). */
  lemma GrantsExact(floor: seq<nat>, natural: seq<nat>, flex: seq<Flex>, terminal: nat) returns (rounds: nat, cut: nat)
    requires |floor| == |natural| && DistinctFlex(flex)
    ensures var cs, budget := Ranked(floor, natural, flex), Budget(floor, natural, flex, terminal);
      forall k :: 0 <= k < |cs| ==>
        Granted(floor, natural, flex, terminal)[cs[k].index]
          == GrantOf(Proportion(cs, budget, k), SaturatingSub(cs[k].want, floor[cs[k].index]), if k < cut then rounds + 1 else rounds)
  {
    var shares;
    shares, rounds, cut := CapsAllot(floor, natural, flex, terminal);
  }

  function GrantOf(share: nat, room: nat, rounds: nat): nat {
    if share + rounds < room then share + rounds else room
  }
}
