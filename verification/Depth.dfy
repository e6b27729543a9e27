/** Depth of one side: the best price levels with their totals, found by sorting the map's keys. */
module Depth {
  import opened PriceTime
  import opened PriceLevel
  import opened Tiers

  /** Adjacent entries of one price make a level: its price and what rests there in all. */
  function LevelsOf(s: seq<Entry<nat>>): seq<(int, int)> {
    if s == [] then []
    else
      var rest := LevelsOf(s[1..]);
      if rest != [] && rest[0].0 == s[0].price then [(s[0].price, s[0].rem + rest[0].1)] + rest[1..]
      else [(s[0].price, s[0].rem)] + rest
  }

  function Take<T>(s: seq<T>, n: nat): seq<T> {
    if n < |s| then s[..n] else s
  }

  // ----- the levels shown, without the functions that compute them

  ghost function PricesOf(s: seq<Entry<nat>>): set<int> {
    set i | 0 <= i < |s| :: s[i].price
  }

  /** What rests at a price in all. */
  ghost function RestingAt(s: seq<Entry<nat>>, price: int): int {
    if s == [] then 0 else (if s[0].price == price then s[0].rem else 0) + RestingAt(s[1..], price)
  }

  /** Best first, each price once, with what rests there; as many as there are prices, but no more than `n`; and
      whatever is not shown is worse. */
  ghost predicate BestLevels(s: seq<Entry<nat>>, side: Side, n: nat, shown: seq<(int, int)>) {
    && |shown| == (if n < |PricesOf(s)| then n else |PricesOf(s)|)
    && (forall i, j :: 0 <= i < j < |shown| ==> Better(side, shown[i].0, shown[j].0))
    && (forall i :: 0 <= i < |shown| ==>
          shown[i].0 in PricesOf(s) && shown[i].1 == RestingAt(s, shown[i].0))
    && (forall p, i :: p in PricesOf(s) && 0 <= i < |shown| && (forall j :: 0 <= j < |shown| ==> shown[j].0 != p) ==>
          Better(side, shown[i].0, p))
  }

  lemma {:induction false} PricesOfCons(s: seq<Entry<nat>>)
    requires s != []
    ensures PricesOf(s) == {s[0].price} + PricesOf(s[1..])
  {
    assert forall i :: 0 < i < |s| ==> s[i] == s[1..][i - 1];
  }

  lemma {:induction false} NothingThere(s: seq<Entry<nat>>, price: int)
    requires price !in PricesOf(s)
    ensures RestingAt(s, price) == 0
  {
    if s != [] {
      PricesOfCons(s);
      NothingThere(s[1..], price);
    }
  }

  /** The levels of a sorted side are all its prices, best first, each with what rests there. */
  ghost predicate AllLevels(s: seq<Entry<nat>>, side: Side, levels: seq<(int, int)>) {
    && |levels| == |PricesOf(s)|
    && (forall i, j :: 0 <= i < j < |levels| ==> Better(side, levels[i].0, levels[j].0))
    && (forall i :: 0 <= i < |levels| ==> levels[i].0 in PricesOf(s) && levels[i].1 == RestingAt(s, levels[i].0))
    && (forall p :: p in PricesOf(s) ==> exists i :: 0 <= i < |levels| && levels[i].0 == p)
    && (s != [] ==> levels != [] && levels[0].0 == s[0].price)
  }

  lemma {:induction false} RestingCons(s: seq<Entry<nat>>, price: int)
    requires s != []
    ensures RestingAt(s, price) == (if s[0].price == price then s[0].rem else 0) + RestingAt(s[1..], price)
  {
  }

  /** `levels` is `rest` with `head` put in front, or in place of its first level. */
  ghost predicate HeadedBy(levels: seq<(int, int)>, head: (int, int), rest: seq<(int, int)>, merged: bool) {
    var d := if merged then 0 else 1;
    && levels != [] && levels[0] == head && |levels| == |rest| + d
    && forall i :: 0 < i < |levels| ==> levels[i] == rest[i - d]
  }

  lemma {:induction false} SamePrice(s: seq<Entry<nat>>, side: Side, rest: seq<(int, int)>, levels: seq<(int, int)>)
    requires |s| > 1 && s[0].price == s[1].price && AllLevels(s[1..], side, rest)
    requires rest != [] && HeadedBy(levels, (s[0].price, s[0].rem + rest[0].1), rest, true)
    ensures AllLevels(s, side, levels)
  {
    PricesOfCons(s);
    hide PricesOf, RestingAt;
    assert s[1..][0] == s[1];
    assert forall i :: 0 <= i < |levels| ==> levels[i].0 == rest[i].0;
    assert PricesOf(s) == PricesOf(s[1..]);
    forall i | 0 <= i < |levels|
      ensures levels[i].1 == RestingAt(s, levels[i].0)
    {
      RestingCons(s, levels[i].0);
      assert i > 0 ==> Better(side, rest[0].0, rest[i].0);
    }
  }

  /** A price followed by another is ahead of all that follow. */
  lemma {:induction false} AheadOfRest(s: seq<Entry<nat>>, side: Side)
    requires s != [] && Sorted(s, side) && (|s| > 1 ==> s[0].price != s[1].price)
    ensures forall q :: q in PricesOf(s[1..]) ==> Better(side, s[0].price, q)
  {
    forall i | 0 < i < |s|
      ensures Better(side, s[0].price, s[i].price)
    {
      assert !Better(side, s[1].price, s[0].price) && (i > 1 ==> !Better(side, s[i].price, s[1].price));
    }
    assert forall i :: 0 <= i < |s[1..]| ==> s[1..][i] == s[i + 1];
  }

  lemma {:induction false} NewPriceSums(s: seq<Entry<nat>>, rest: seq<(int, int)>, levels: seq<(int, int)>)
    requires s != [] && s[0].price !in PricesOf(s[1..]) && HeadedBy(levels, (s[0].price, s[0].rem), rest, false)
    requires forall i :: 0 <= i < |rest| ==> rest[i].0 in PricesOf(s[1..]) && rest[i].1 == RestingAt(s[1..], rest[i].0)
    ensures forall i :: 0 <= i < |levels| ==> levels[i].1 == RestingAt(s, levels[i].0)
  {
    NothingThere(s[1..], s[0].price);
    hide PricesOf, RestingAt;
    forall i | 0 <= i < |levels|
      ensures levels[i].1 == RestingAt(s, levels[i].0)
    {
      RestingCons(s, levels[i].0);
      assert i > 0 ==> levels[i] == rest[i - 1];
    }
  }

  lemma {:induction false} NewPriceFound(prices: set<int>, p: int, head: (int, int), rest: seq<(int, int)>,
      levels: seq<(int, int)>)
    requires HeadedBy(levels, head, rest, false) && head.0 == p && p !in prices && |rest| == |prices|
    requires forall q :: q in prices ==> exists i :: 0 <= i < |rest| && rest[i].0 == q
    ensures |levels| == |{p} + prices|
    ensures forall q :: q in {p} + prices ==> exists i :: 0 <= i < |levels| && levels[i].0 == q
  {
    forall q | q in {p} + prices
      ensures exists i :: 0 <= i < |levels| && levels[i].0 == q
    {
      if q == p {
        assert levels[0].0 == q;
      } else {
        var i :| 0 <= i < |rest| && rest[i].0 == q;
        assert levels[i + 1] == rest[i];
      }
    }
  }

  lemma {:induction false} NewPrice(s: seq<Entry<nat>>, side: Side, rest: seq<(int, int)>, levels: seq<(int, int)>)
    requires s != [] && Sorted(s, side) && (|s| > 1 ==> s[0].price != s[1].price) && AllLevels(s[1..], side, rest)
    requires HeadedBy(levels, (s[0].price, s[0].rem), rest, false)
    ensures AllLevels(s, side, levels)
  {
    PricesOfCons(s);
    AheadOfRest(s, side);
    hide PricesOf, RestingAt, Sorted, HeadedBy;
    assert s[0].price !in PricesOf(s[1..]);
    NewPriceSums(s, rest, levels);
    NewPriceFound(PricesOf(s[1..]), s[0].price, (s[0].price, s[0].rem), rest, levels);
    NewPriceFirst(PricesOf(s[1..]), side, (s[0].price, s[0].rem), rest, levels);
  }

  lemma {:induction false} NewPriceFirst(prices: set<int>, side: Side, head: (int, int), rest: seq<(int, int)>,
      levels: seq<(int, int)>)
    requires HeadedBy(levels, head, rest, false) && forall q :: q in prices ==> Better(side, head.0, q)
    requires forall i, j :: 0 <= i < j < |rest| ==> Better(side, rest[i].0, rest[j].0)
    requires forall i :: 0 <= i < |rest| ==> rest[i].0 in prices
    ensures forall i, j :: 0 <= i < j < |levels| ==> Better(side, levels[i].0, levels[j].0)
    ensures levels != [] && levels[0] == head && forall i :: 0 <= i < |levels| ==> levels[i].0 in {head.0} + prices
  {
    hide Better;
    forall i, j | 0 <= i < j < |levels|
      ensures Better(side, levels[i].0, levels[j].0)
    {
      assert levels[j] == rest[j - 1] && (i > 0 ==> levels[i] == rest[i - 1]);
    }
    assert forall i :: 0 < i < |levels| ==> levels[i] == rest[i - 1];
  }

  lemma {:induction false} LevelsOfCons(s: seq<Entry<nat>>)
    requires s != []
    ensures var rest := LevelsOf(s[1..]);
      if rest != [] && rest[0].0 == s[0].price then
        HeadedBy(LevelsOf(s), (s[0].price, s[0].rem + rest[0].1), rest, true)
      else HeadedBy(LevelsOf(s), (s[0].price, s[0].rem), rest, false)
  {
  }

  lemma {:induction false} SortedTail(s: seq<Entry<nat>>, side: Side)
    requires Sorted(s, side) && s != []
    ensures Sorted(s[1..], side)
  {
    assert forall i :: 0 <= i < |s[1..]| ==> s[1..][i] == s[i + 1];
  }

  lemma {:induction false} LevelsAreAll(s: seq<Entry<nat>>, side: Side)
    requires Sorted(s, side)
    ensures AllLevels(s, side, LevelsOf(s))
  {
    if s == [] {
      assert PricesOf(s) == {};
    } else {
      hide AllLevels, PricesOf, RestingAt, LevelsOf, Sorted, HeadedBy;
      SortedTail(s, side);
      LevelsAreAll(s[1..], side);
      var rest := LevelsOf(s[1..]);
      LevelsOfCons(s);
      LevelsStart(s[1..], side, rest);
      assert |s| > 1 ==> s[1..][0] == s[1];
      if rest != [] && rest[0].0 == s[0].price {
        SamePrice(s, side, rest, LevelsOf(s));
      } else {
        NewPrice(s, side, rest, LevelsOf(s));
      }
    }
  }

  lemma {:induction false} LevelsStart(s: seq<Entry<nat>>, side: Side, levels: seq<(int, int)>)
    requires AllLevels(s, side, levels)
    ensures s == [] <==> levels == []
    ensures s != [] ==> levels[0].0 == s[0].price
  {
    if s == [] {
      assert PricesOf(s) == {};
    }
  }

  lemma {:induction false} FirstAreBest(s: seq<Entry<nat>>, side: Side, n: nat, levels: seq<(int, int)>,
      shown: seq<(int, int)>)
    requires AllLevels(s, side, levels) && |shown| == (if n < |levels| then n else |levels|)
    requires forall i :: 0 <= i < |shown| ==> shown[i] == levels[i]
    ensures BestLevels(s, side, n, shown)
  {
    hide RestingAt, PricesOf, Better;
    forall p, i | p in PricesOf(s) && 0 <= i < |shown| && (forall j :: 0 <= j < |shown| ==> shown[j].0 != p)
      ensures Better(side, shown[i].0, p)
    {
      var k :| 0 <= k < |levels| && levels[k].0 == p;
      assert k >= |shown|;
    }
  }

  /** So the first `n` of them are the best `n`. */
  lemma {:induction false} TakeIsBest(s: seq<Entry<nat>>, side: Side, n: nat)
    requires Sorted(s, side)
    ensures BestLevels(s, side, n, Take(LevelsOf(s), n))
  {
    LevelsAreAll(s, side);
    hide LevelsOf, BestLevels, AllLevels;
    FirstAreBest(s, side, n, LevelsOf(s), Take(LevelsOf(s), n));
  }

  ghost function Totals(tiers: seq<Tier>): seq<(int, int)> {
    seq(|tiers|, i requires 0 <= i < |tiers| => (tiers[i].price, Total(tiers[i].queue)))
  }

  lemma {:induction false} LevelsOfQueue(t: Tier, rest: seq<Entry<nat>>)
    requires TierOk(t) && t.queue != []
    requires LevelsOf(rest) == [] || LevelsOf(rest)[0].0 != t.price
    ensures LevelsOf(t.queue + rest) == [(t.price, Total(t.queue))] + LevelsOf(rest)
    decreases |t.queue|
  {
    var q := t.queue;
    assert (q + rest)[0] == q[0] && (q + rest)[1..] == q[1..] + rest;
    if |q| == 1 {
      assert q[1..] + rest == rest;
      assert Total(q[1..]) == 0;
    } else {
      LevelsOfQueue(t.(queue := q[1..]), rest);
      assert ([(t.price, Total(q[1..]))] + LevelsOf(rest))[1..] == LevelsOf(rest);
    }
  }

  /** Grouping the flat list by price gives back the tiers. */
  lemma {:induction false} LevelsAreTiers(tiers: seq<Tier>, side: Side)
    requires TiersOk(tiers, side) && NoEmptyTier(tiers)
    ensures LevelsOf(Flatten(tiers)) == Totals(tiers)
  {
    if tiers != [] {
      hide Totals, LevelsOf, Total;
      TiersTail(tiers, side);
      LevelsAreTiers(tiers[1..], side);
      TotalsFirst(tiers[1..]);
      assert tiers[1..] != [] ==> tiers[1..][0].price != tiers[0].price;
      LevelsOfQueue(tiers[0], Flatten(tiers[1..]));
      TotalsCons(tiers);
    } else {
      assert Totals(tiers) == [];
    }
  }

  lemma TotalsFirst(tiers: seq<Tier>)
    ensures Totals(tiers) == [] <==> tiers == []
    ensures tiers != [] ==> Totals(tiers)[0].0 == tiers[0].price
  {
  }

  lemma TotalsCons(tiers: seq<Tier>)
    requires tiers != []
    ensures Totals(tiers) == [(tiers[0].price, Total(tiers[0].queue))] + Totals(tiers[1..])
  {
    hide Total;
    var rest := tiers[1..];
    assert forall i :: 0 < i < |tiers| ==> tiers[i] == rest[i - 1];
  }

  /** The keys without those still to do, each once. */
  ghost predicate Listed(prices: seq<int>, keys: set<int>, todo: set<int>) {
    todo <= keys && |prices| + |todo| == |keys| && multiset(prices) == multiset(keys - todo)
  }

  lemma NoneListed(keys: set<int>)
    ensures Listed([], keys, keys)
  {
    assert keys - keys == {};
  }

  lemma ListMore(prices: seq<int>, keys: set<int>, todo: set<int>, p: int)
    requires Listed(prices, keys, todo) && p in todo
    ensures |prices| < |keys| && Listed(prices + [p], keys, todo - {p})
  {
    assert keys - (todo - {p}) == (keys - todo) + {p};
    assert |todo - {p}| == |todo| - 1;
  }

  lemma AllListed(prices: seq<int>, keys: set<int>)
    requires Listed(prices, keys, {})
    ensures |prices| == |keys| && multiset(prices) == multiset(keys)
  {
    assert keys - {} == keys;
  }

  ghost predicate Ordered(s: seq<int>, side: Side) {
    forall i, j :: 0 <= i < j < |s| ==> !Better(side, s[j], s[i])
  }

  /** Everything before `i` is in its final place. */
  ghost predicate SettledUpTo(s: seq<int>, side: Side, i: nat) {
    forall a, b :: 0 <= a < i && a < b < |s| ==> !Better(side, s[b], s[a])
  }

  function Swap(s: seq<int>, i: nat, j: nat): seq<int>
    requires i < |s| && j < |s|
  {
    s[i := s[j]][j := s[i]]
  }

  /** Place `i` holds the best of what it has been compared with, the places before `j`. */
  ghost predicate Settling(s: seq<int>, side: Side, i: nat, j: nat) {
    && i < j <= |s| && SettledUpTo(s, side, i)
    && forall b :: i < b < j ==> !Better(side, s[b], s[i])
  }

  lemma SwapKeeps(s: seq<int>, side: Side, i: nat, j: nat)
    requires Settling(s, side, i, j) && j < |s| && Better(side, s[j], s[i])
    ensures multiset(Swap(s, i, j)) == multiset(s)
    ensures Settling(Swap(s, i, j), side, i, j + 1)
  {
    var r := Swap(s, i, j);
    assert forall k :: 0 <= k < |s| ==> r[k] == if k == i then s[j] else if k == j then s[i] else s[k];
  }

  lemma StaySettles(s: seq<int>, side: Side, i: nat, j: nat)
    requires Settling(s, side, i, j) && j < |s| && !Better(side, s[j], s[i])
    ensures Settling(s, side, i, j + 1)
  {
  }

  lemma SettlesFirst(s: seq<int>, side: Side, i: nat)
    requires SettledUpTo(s, side, i) && i < |s|
    ensures Settling(s, side, i, i + 1)
  {
  }

  lemma SettlesLast(s: seq<int>, side: Side, i: nat)
    requires Settling(s, side, i, |s|)
    ensures SettledUpTo(s, side, i + 1)
  {
  }

  lemma SettledIsOrdered(s: seq<int>, side: Side)
    requires SettledUpTo(s, side, |s|)
    ensures Ordered(s, side)
  {
  }

  /** The exchange sort: place `i` is compared with every later place and swapped when worse. */
  method SortPrices(prices: array<int>, side: Side)
    modifies prices
    ensures Ordered(prices[..], side)
    ensures multiset(prices[..]) == multiset(old(prices[..]))
  {
    assert SettledUpTo(prices[..], side, 0);
    hide SettledUpTo, Settling, Swap, Ordered, Better;
    var i := 0;
    while i < prices.Length
      invariant 0 <= i <= prices.Length && SettledUpTo(prices[..], side, i)
      invariant multiset(prices[..]) == multiset(old(prices[..]))
    {
      SettlesFirst(prices[..], side, i);
      var j := i + 1;
      while j < prices.Length
        invariant i < j <= prices.Length && Settling(prices[..], side, i, j)
        invariant multiset(prices[..]) == multiset(old(prices[..]))
      {
        if Better(side, prices[j], prices[i]) {
          ghost var s := prices[..];
          SwapKeeps(s, side, i, j);
          prices[i], prices[j] := prices[j], prices[i];
          SwapIs(s, prices[..], i, j);
        } else {
          StaySettles(prices[..], side, i, j);
        }
        j := j + 1;
      }
      SettlesLast(prices[..], side, i);
      i := i + 1;
    }
    SettledIsOrdered(prices[..], side);
  }

  lemma SwapIs(s: seq<int>, r: seq<int>, i: nat, j: nat)
    requires i < |s| && j < |s| && r == s[i := s[j]][j := s[i]]
    ensures r == Swap(s, i, j)
  {
  }

  lemma HeadIsBest(s: seq<int>, tiers: seq<Tier>, side: Side)
    requires TiersOk(tiers, side) && Ordered(s, side) && tiers != []
    requires forall p :: p in multiset(s) <==> p in Prices(tiers)
    ensures s != [] && s[0] == tiers[0].price
  {
    var p := tiers[0].price;
    assert p in Prices(tiers);
    assert p in multiset(s);
    var k :| 0 <= k < |s| && s[k] == p;
    assert s[0] in multiset(s);
    var i :| 0 <= i < |tiers| && tiers[i].price == s[0];
    assert i > 0 ==> Better(side, p, s[0]);
  }

  lemma DropHead(s: seq<int>, tiers: seq<Tier>, side: Side)
    requires TiersOk(tiers, side) && tiers != [] && s != [] && s[0] == tiers[0].price
    requires multiset(s) == multiset(Prices(tiers))
    ensures multiset(s[1..]) == multiset(Prices(tiers[1..]))
  {
    hide Prices;
    var p := s[0];
    PricesCons(tiers);
    assert p !in Prices(tiers[1..]) by { HeadApart(tiers, side); }
    assert s == [p] + s[1..];
    var a, b := multiset(s[1..]), multiset(Prices(tiers[1..]));
    assert multiset(s) == multiset{p} + a;
    assert multiset(Prices(tiers)) == multiset{p} + b;
    assert a == (multiset{p} + a) - multiset{p};
    assert b == (multiset{p} + b) - multiset{p};
  }

  lemma HeadApart(tiers: seq<Tier>, side: Side)
    requires TiersOk(tiers, side) && tiers != []
    ensures tiers[0].price !in Prices(tiers[1..])
  {
    var ts := tiers[1..];
    forall i | 0 <= i < |ts|
      ensures ts[i].price != tiers[0].price
    {
      assert ts[i] == tiers[i + 1];
    }
  }

  lemma NoPrices(s: seq<int>)
    requires multiset(s) == multiset(Prices([]))
    ensures s == []
  {
    assert Prices([]) == {};
    assert |multiset(s)| == |s|;
  }

  ghost predicate ListsTiers(s: seq<int>, tiers: seq<Tier>) {
    |s| == |tiers| && forall i :: 0 <= i < |s| ==> s[i] == tiers[i].price
  }

  lemma ListsTiersCons(s: seq<int>, tiers: seq<Tier>)
    requires s != [] && tiers != [] && s[0] == tiers[0].price && ListsTiers(s[1..], tiers[1..])
    ensures ListsTiers(s, tiers)
  {
    assert forall i :: 1 <= i < |s| ==> s[i] == s[1..][i - 1] && tiers[i] == tiers[1..][i - 1];
  }

  /** There is only one way to list the prices of the tiers in priority order. */
  lemma {:induction false} SortedPricesAreTiers(s: seq<int>, tiers: seq<Tier>, side: Side)
    requires TiersOk(tiers, side) && Ordered(s, side)
    requires multiset(s) == multiset(Prices(tiers))
    ensures ListsTiers(s, tiers)
    decreases |tiers|
  {
    hide TiersOk, Ordered, Prices;
    if tiers == [] {
      NoPrices(s);
    } else {
      hide ListsTiers;
      assert forall p :: p in multiset(s) <==> p in Prices(tiers);
      HeadIsBest(s, tiers, side);
      DropHead(s, tiers, side);
      TiersTail(tiers, side);
      OrderedTail(s, side);
      SortedPricesAreTiers(s[1..], tiers[1..], side);
      ListsTiersCons(s, tiers);
    }
  }

  lemma OrderedTail(s: seq<int>, side: Side)
    requires Ordered(s, side) && s != []
    ensures Ordered(s[1..], side)
  {
  }
}
