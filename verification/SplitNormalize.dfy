/**
 Split normalization of daily bars: split_normalize of engine/research_market_data.py.

 Main results: the in-place loop gives each bar its raw prices times the product of old / new over
 the valid splits after it, and its raw volume times the product of new / old (SplitNormalize); the
 products do not depend on the order of the actions (OrderDoesNotMatter); price times volume is kept
 on every bar (TurnoverIsKept); price ratios between bars change only across ex-dates, and there by
 exactly new / old (RatioBetweenBars), so that a normalised return is that of a holder (ReturnIsHolders).

 Dates are days. A missing number stays missing.
 */
module SplitNormalize {
  import opened Common
  import opened Linear

  datatype Kind = ForwardSplit | ReverseSplit | OtherAction

  /** A corporate action; order is the rank of its ex-date text, by which the source sorts. */
  datatype Action = Action(kind: Kind, order: int, exDate: Option<int>, oldRate: Option<real>, newRate: Option<real>) {
    /** A split with all its fields. */
    predicate IsSplit() {
      kind != OtherAction && exDate.Some? && oldRate.Some? && newRate.Some?
    }

    predicate Valid() {
      IsSplit() && oldRate.value > 0.0 && newRate.value > 0.0
    }

    /** The action rescales bars of this day. */
    predicate Covers(day: int) { Valid() && day < exDate.value }
  }

  datatype Bar =
    Bar(open: Option<real>, high: Option<real>, low: Option<real>, close: Option<real>, volume: Option<real>)

  function Scaled(x: Option<real>, factor: real): Option<real> {
    if x.Some? then Some(Times(x.value, factor)) else None
  }

  function Rescaled(bar: Bar, price: real, volume: real): Bar {
    Bar(Scaled(bar.open, price), Scaled(bar.high, price), Scaled(bar.low, price), Scaled(bar.close, price),
        Scaled(bar.volume, volume))
  }

  /** What one action does to the prices, or to the volume, of a day. */
  datatype Column = Price | Volume

  function Factor(a: Action, day: int, column: Column): (f: real)
    ensures f > 0.0
  {
    if !a.Covers(day) then 1.0
    else if column == Price then PositiveRatio(a.oldRate.value, a.newRate.value)
    else PositiveRatio(a.newRate.value, a.oldRate.value)
  }

  function PositiveRatio(a: real, b: real): (r: real)
    requires a > 0.0 && b > 0.0
    ensures r > 0.0 && r == Ratio(a, b)
  {
    RatioIsPositive(a, b);
    Ratio(a, b)
  }

  /** The product of the factors of a list of actions. */
  function Product(actions: seq<Action>, day: int, column: Column): (p: real)
    ensures p > 0.0
  {
    if actions == [] then 1.0
    else
      var n := |actions| - 1;
      TimesIsPositive(Product(actions[..n], day, column), Factor(actions[n], day, column));
      Times(Product(actions[..n], day, column), Factor(actions[n], day, column))
  }

  // ---------------------------------------------------------------- arithmetic

  lemma TimesIsPositive(a: real, b: real)
    requires a > 0.0 && b > 0.0
    ensures Times(a, b) > 0.0
  {
  }

  lemma RatioIsPositive(a: real, b: real)
    requires a > 0.0 && b > 0.0
    ensures Ratio(a, b) > 0.0
  {
  }

  lemma TimesCommutes(a: real, b: real)
    ensures Times(a, b) == Times(b, a)
    ensures Times(a, 1.0) == a == Times(1.0, a)
  {
  }

  lemma TimesSwaps(a: real, b: real, c: real)
    ensures Times(Times(a, b), c) == Times(Times(a, c), b)
  {
    hide Times;
    TimesAssociates(a, b, c);
    TimesCommutes(b, c);
    TimesAssociates(a, c, b);
  }

  lemma RatiosCancel(a: real, b: real)
    requires a > 0.0 && b > 0.0
    ensures Times(Ratio(a, b), Ratio(b, a)) == 1.0
  {
    var q, r := a / b, b / a;
    assert q * b == a && r * a == b;
    assert q * r == 1.0 by {
      assert q * b * r == a * r;
      assert (q * r) * b == b;
    }
  }

  lemma RescaledTwice(bar: Bar, p: real, v: real, p2: real, v2: real)
    ensures Rescaled(Rescaled(bar, p, v), p2, v2) == Rescaled(bar, Times(p, p2), Times(v, v2))
  {
    hide Times;
    ScaledTwice(bar.open, p, p2);
    ScaledTwice(bar.high, p, p2);
    ScaledTwice(bar.low, p, p2);
    ScaledTwice(bar.close, p, p2);
    ScaledTwice(bar.volume, v, v2);
  }

  lemma ScaledTwice(x: Option<real>, f: real, g: real)
    ensures Scaled(Scaled(x, f), g) == Scaled(x, Times(f, g))
  {
    hide Times;
    if x.Some? {
      TimesAssociates(x.value, f, g);
    }
  }

  lemma RescaledByOne(bar: Bar)
    ensures Rescaled(bar, 1.0, 1.0) == bar
  {
  }

  lemma ProductOfNone(day: int, column: Column)
    ensures Product([], day, column) == 1.0
  {
  }

  lemma ProductExtends(actions: seq<Action>, a: Action, day: int, column: Column)
    ensures Product(actions + [a], day, column) == Times(Product(actions, day, column), Factor(a, day, column))
  {
    hide Times, Factor;
    assert (actions + [a])[..|actions|] == actions;
  }

  // ---------------------------------------------------------------- the order of the actions

  /** An action may be moved to the end of the list. */
  lemma {:induction false} ProductMovesToEnd(before: seq<Action>, a: Action, rest: seq<Action>, day: int,
                                          column: Column)
    ensures Product(before + [a] + rest, day, column)
            == Times(Product(before + rest, day, column), Factor(a, day, column))
    decreases |rest|
  {
    hide Times, Factor;
    var whole := before + [a] + rest;
    if rest == [] {
      assert whole[..|whole| - 1] == before == before + rest;
    } else {
      var n := |rest| - 1;
      assert whole[..|whole| - 1] == before + [a] + rest[..n];
      assert (before + rest)[..|before + rest| - 1] == before + rest[..n];
      ProductMovesToEnd(before, a, rest[..n], day, column);
      TimesSwaps(Product(before + rest[..n], day, column), Factor(a, day, column), Factor(rest[n], day, column));
    }
  }

  /** The products depend on which actions there are, not on their order. */
  lemma {:induction false} OrderDoesNotMatter(a: seq<Action>, b: seq<Action>, day: int, column: Column)
    requires multiset(a) == multiset(b)
    ensures Product(a, day, column) == Product(b, day, column)
    decreases |a|
  {
    hide Times, Factor;
    if a == [] {
      assert |multiset(a)| == |a| && |multiset(b)| == |b|;
    } else {
      var n := |a| - 1;
      var i := Find(b, a);
      RemoveOne(a, b, i);
      OrderDoesNotMatter(a[..n], b[..i] + b[i + 1..], day, column);
      ProductMovesToEnd(b[..i], b[i], b[i + 1..], day, column);
      assert b == b[..i] + [b[i]] + b[i + 1..];
    }
  }

  /** Where the last of a occurs in its rearrangement b. */
  lemma Find(b: seq<Action>, a: seq<Action>) returns (i: nat)
    requires a != [] && multiset(a) == multiset(b)
    ensures i < |b| && b[i] == a[|a| - 1]
  {
    assert a[|a| - 1] in multiset(a);
    i :| 0 <= i < |b| && b[i] == a[|a| - 1];
  }

  lemma RemoveOne(a: seq<Action>, b: seq<Action>, i: nat)
    requires a != [] && multiset(a) == multiset(b) && i < |b| && b[i] == a[|a| - 1]
    ensures multiset(a[..|a| - 1]) == multiset(b[..i] + b[i + 1..])
  {
    var n := |a| - 1;
    assert a == a[..n] + [a[n]];
    WithoutOne(b, i);
    CancelOne(multiset(a[..n]), multiset(b[..i] + b[i + 1..]), a[n]);
  }

  lemma WithoutOne<T>(b: seq<T>, i: nat)
    requires i < |b|
    ensures multiset(b) == multiset(b[..i] + b[i + 1..]) + multiset{b[i]}
  {
    assert b == b[..i] + [b[i]] + b[i + 1..];
  }

  lemma CancelOne<T>(p: multiset<T>, q: multiset<T>, x: T)
    requires p + multiset{x} == q + multiset{x}
    ensures p == q
  {
    forall y: T | y in p || y in q
      ensures p[y] == q[y]
    {
      assert (p + multiset{x})[y] == (q + multiset{x})[y];
    }
  }

  /** The splits with all their fields, in the order given. */
  function Splits(actions: seq<Action>): (splits: seq<Action>)
    ensures forall k :: 0 <= k < |splits| ==> splits[k].IsSplit()
  {
    if actions == [] then []
    else
      var n := |actions| - 1;
      if actions[n].IsSplit() then Splits(actions[..n]) + [actions[n]] else Splits(actions[..n])
  }

  lemma {:induction false} OnlySplitsCount(actions: seq<Action>, day: int, column: Column)
    ensures Product(Splits(actions), day, column) == Product(actions, day, column)
  {
    hide Times;
    if actions != [] {
      var n := |actions| - 1;
      OnlySplitsCount(actions[..n], day, column);
      if actions[n].IsSplit() {
        assert Splits(actions)[..|Splits(actions)| - 1] == Splits(actions[..n]);
      } else {
        TimesCommutes(Product(actions[..n], day, column), 1.0);
      }
    }
  }

  /** A stable sort by the ex-date text. */
  function Insert(sorted: seq<Action>, a: Action): (longer: seq<Action>)
    ensures multiset(longer) == multiset(sorted + [a])
  {
    if sorted == [] || sorted[|sorted| - 1].order <= a.order then sorted + [a]
    else
      var n := |sorted| - 1;
      assert sorted == sorted[..n] + [sorted[n]];
      Insert(sorted[..n], a) + [sorted[n]]
  }

  function Sorted(actions: seq<Action>): (sorted: seq<Action>)
    ensures multiset(sorted) == multiset(actions)
  {
    if actions == [] then []
    else
      var n := |actions| - 1;
      assert actions == actions[..n] + [actions[n]];
      Insert(Sorted(actions[..n]), actions[n])
  }

  ghost predicate InOrder(actions: seq<Action>) {
    forall i, j :: 0 <= i < j < |actions| ==> actions[i].order <= actions[j].order
  }

  /** The actions of one rank, as they stand in a list. */
  function OfRank(actions: seq<Action>, rank: int): seq<Action> {
    if actions == [] then []
    else
      var n := |actions| - 1;
      OfRank(actions[..n], rank) + if actions[n].order == rank then [actions[n]] else []
  }

  lemma {:induction false} InsertKeepsOrder(sorted: seq<Action>, a: Action)
    requires InOrder(sorted)
    ensures InOrder(Insert(sorted, a))
  {
    var n := |sorted| - 1;
    if sorted != [] && sorted[n].order > a.order {
      InsertKeepsOrder(sorted[..n], a);
      var front := Insert(sorted[..n], a);
      forall i | 0 <= i < |front|
        ensures front[i].order <= sorted[n].order
      {
        InsertedFrom(sorted[..n], a, i);
      }
    }
  }

  lemma InsertedFrom(sorted: seq<Action>, a: Action, i: nat)
    requires i < |Insert(sorted, a)|
    ensures Insert(sorted, a)[i] == a || Insert(sorted, a)[i] in sorted
  {
    assert Insert(sorted, a)[i] in multiset(Insert(sorted, a));
  }

  lemma OfRankAppend(actions: seq<Action>, a: Action, rank: int)
    ensures OfRank(actions + [a], rank) == OfRank(actions, rank) + if a.order == rank then [a] else []
  {
    assert (actions + [a])[..|actions|] == actions;
  }

  lemma {:induction false} InsertIsStable(sorted: seq<Action>, a: Action, rank: int)
    ensures OfRank(Insert(sorted, a), rank) == OfRank(sorted, rank) + if a.order == rank then [a] else []
  {
    hide OfRank;
    var n := |sorted| - 1;
    if sorted == [] || sorted[n].order <= a.order {
      OfRankAppend(sorted, a, rank);
    } else {
      InsertIsStable(sorted[..n], a, rank);
      OfRankAppend(Insert(sorted[..n], a), sorted[n], rank);
      assert sorted == sorted[..n] + [sorted[n]];
      OfRankAppend(sorted[..n], sorted[n], rank);
    }
  }

  /** The splits are in the order of their ex-date text, and those with the same text in the order they
      were given. */
  lemma {:induction false} SortedIsStable(actions: seq<Action>, rank: int)
    ensures InOrder(Sorted(actions)) && OfRank(Sorted(actions), rank) == OfRank(actions, rank)
  {
    if actions != [] {
      var n := |actions| - 1;
      SortedIsStable(actions[..n], rank);
      InsertKeepsOrder(Sorted(actions[..n]), actions[n]);
      InsertIsStable(Sorted(actions[..n]), actions[n], rank);
    }
  }

  // ---------------------------------------------------------------- the loop

  /** The mask of an action. */
  predicate Touches(a: Action, days: seq<int>) {
    a.Valid() && exists k :: 0 <= k < |days| && days[k] < a.exDate.value
  }

  /** The rows of one split, in place. */
  method ApplySplit(bars: array<Bar>, days: seq<int>, a: Action) returns (touched: bool)
    requires bars.Length == |days| && a.IsSplit()
    modifies bars
    ensures touched <==> Touches(a, days)
    ensures forall k :: 0 <= k < |days| ==>
              bars[k] == Rescaled(old(bars[k]), Factor(a, days[k], Price), Factor(a, days[k], Volume))
  {
    hide Rescaled, Ratio;
    touched := false;
    for k := 0 to |days|
      invariant touched <==> a.Valid() && exists j :: 0 <= j < k && days[j] < a.exDate.value
      invariant forall j :: 0 <= j < k ==>
                bars[j] == Rescaled(old(bars[j]), Factor(a, days[j], Price), Factor(a, days[j], Volume))
      invariant forall j :: k <= j < |days| ==> bars[j] == old(bars[j])
    {
      if a.Covers(days[k]) {
        touched := true;
        var priceRatio := PositiveRatio(a.oldRate.value, a.newRate.value);
        var volumeRatio := PositiveRatio(a.newRate.value, a.oldRate.value);
        bars[k] := Rescaled(bars[k], priceRatio, volumeRatio);
      } else {
        RescaledByOne(bars[k]);
      }
    }
  }

  /** The splits that rescaled some bar. */
  function Applied(splits: seq<Action>, days: seq<int>): seq<Action> {
    if splits == [] then []
    else
      var n := |splits| - 1;
      if Touches(splits[n], days) then Applied(splits[..n], days) + [splits[n]] else Applied(splits[..n], days)
  }

  /** split_normalize. */
  method SplitNormalize(days: seq<int>, raw: seq<Bar>, actions: seq<Action>)
    returns (normalized: seq<Bar>, applied: seq<Action>)
    requires |days| == |raw|
    ensures |normalized| == |raw|
    ensures forall k :: 0 <= k < |raw| ==>
              normalized[k] == Rescaled(raw[k], Product(actions, days[k], Price), Product(actions, days[k], Volume))
    ensures InOrder(Sorted(Splits(actions))) && applied == Applied(Sorted(Splits(actions)), days)
  {
    hide Rescaled, Product, Factor, Times, Sorted, Splits, InOrder, OfRank;
    var bars := new Bar[|raw|](k requires 0 <= k < |raw| => raw[k]);
    var splits := Sorted(Splits(actions));
    SortedIsStable(Splits(actions), 0);
    assert forall i :: 0 <= i < |splits| ==> splits[i] in multiset(splits);
    applied := [];
    forall k | 0 <= k < |raw|
      ensures bars[k] == Rescaled(raw[k], Product(splits[..0], days[k], Price), Product(splits[..0], days[k], Volume))
    {
      ProductOfNone(days[k], Price);
      ProductOfNone(days[k], Volume);
      RescaledByOne(raw[k]);
    }
    for i := 0 to |splits|
      invariant bars.Length == |raw|
      invariant forall k :: 0 <= k < |raw| ==>
                bars[k] == Rescaled(raw[k], Product(splits[..i], days[k], Price), Product(splits[..i], days[k], Volume))
      invariant applied == Applied(splits[..i], days)
    {
      var touched := ApplySplit(bars, days, splits[i]);
      if touched {
        applied := applied + [splits[i]];
      }
      assert splits[..i + 1] == splits[..i] + [splits[i]];
      forall k | 0 <= k < |raw|
        ensures bars[k]
                == Rescaled(raw[k], Product(splits[..i + 1], days[k], Price), Product(splits[..i + 1], days[k], Volume))
      {
        ProductExtends(splits[..i], splits[i], days[k], Price);
        ProductExtends(splits[..i], splits[i], days[k], Volume);
        RescaledTwice(raw[k], Product(splits[..i], days[k], Price), Product(splits[..i], days[k], Volume),
                      Factor(splits[i], days[k], Price), Factor(splits[i], days[k], Volume));
      }
    }
    assert splits[..|splits|] == splits;
    normalized := bars[..];
    forall k | 0 <= k < |raw|
      ensures normalized[k] == Rescaled(raw[k], Product(actions, days[k], Price), Product(actions, days[k], Volume))
    {
      OnlySplitsCount(actions, days[k], Price);
      OnlySplitsCount(actions, days[k], Volume);
      OrderDoesNotMatter(splits, Splits(actions), days[k], Price);
      OrderDoesNotMatter(splits, Splits(actions), days[k], Volume);
    }
  }

  // ---------------------------------------------------------------- what normalization keeps

  lemma {:induction false} ProductsCancel(actions: seq<Action>, day: int)
    ensures Times(Product(actions, day, Price), Product(actions, day, Volume)) == 1.0
  {
    hide Times, Ratio;
    if actions == [] {
      TimesCommutes(1.0, 1.0);
    } else {
      var n := |actions| - 1;
      ProductsCancel(actions[..n], day);
      var p, v := Product(actions[..n], day, Price), Product(actions[..n], day, Volume);
      var f, g := Factor(actions[n], day, Price), Factor(actions[n], day, Volume);
      FactorsCancel(actions[n], day);
      TimesOfProducts(p, f, v, g);
      TimesCommutes(1.0, 1.0);
    }
  }

  lemma FactorsCancel(a: Action, day: int)
    ensures Times(Factor(a, day, Price), Factor(a, day, Volume)) == 1.0
  {
    hide Times, Ratio;
    if a.Covers(day) {
      RatiosCancel(a.oldRate.value, a.newRate.value);
    } else {
      TimesCommutes(1.0, 1.0);
    }
  }

  lemma TimesOfProducts(a: real, b: real, c: real, d: real)
    ensures Times(Times(a, b), Times(c, d)) == Times(Times(a, c), Times(b, d))
  {
    hide Times;
    TimesAssociates(Times(a, b), c, d);
    TimesSwaps(a, b, c);
    TimesAssociates(Times(a, c), b, d);
  }

  /** Price times volume, where neither is missing. */
  function TradedValue(price: Option<real>, volume: Option<real>): Option<real> {
    if price.Some? && volume.Some? then Some(Times(price.value, volume.value)) else None
  }

  lemma ScaledValueIsKept(price: Option<real>, volume: Option<real>, actions: seq<Action>, day: int)
    ensures TradedValue(Scaled(price, Product(actions, day, Price)), Scaled(volume, Product(actions, day, Volume)))
            == TradedValue(price, volume)
  {
    hide Times, Product;
    if price.Some? && volume.Some? {
      TimesOfProducts(price.value, Product(actions, day, Price), volume.value, Product(actions, day, Volume));
      ProductsCancel(actions, day);
      TimesCommutes(Times(price.value, volume.value), 1.0);
    }
  }

  /** The normalized bar is worth what the raw bar was: each price times the volume is kept. */
  lemma TurnoverIsKept(bar: Bar, actions: seq<Action>, day: int)
    ensures var n := Rescaled(bar, Product(actions, day, Price), Product(actions, day, Volume));
            && TradedValue(n.open, n.volume) == TradedValue(bar.open, bar.volume)
            && TradedValue(n.high, n.volume) == TradedValue(bar.high, bar.volume)
            && TradedValue(n.low, n.volume) == TradedValue(bar.low, bar.volume)
            && TradedValue(n.close, n.volume) == TradedValue(bar.close, bar.volume)
  {
    hide Times, Product, TradedValue;
    ScaledValueIsKept(bar.open, bar.volume, actions, day);
    ScaledValueIsKept(bar.high, bar.volume, actions, day);
    ScaledValueIsKept(bar.low, bar.volume, actions, day);
    ScaledValueIsKept(bar.close, bar.volume, actions, day);
  }

  /** The valid splits with an ex-date after one day and on or before another. */
  function Between(actions: seq<Action>, day: int, later: int): (between: seq<Action>)
    ensures forall k :: 0 <= k < |between| ==> between[k].Covers(day) && between[k].exDate.value <= later
  {
    if actions == [] then []
    else
      var n := |actions| - 1;
      if actions[n].Covers(day) && actions[n].exDate.value <= later
      then Between(actions[..n], day, later) + [actions[n]] else Between(actions[..n], day, later)
  }

  /** The factor of a bar is that of a later bar times that of the splits between them. */
  lemma {:induction false} ProductSplits(actions: seq<Action>, day: int, later: int)
    requires day <= later
    ensures Product(actions, day, Price)
            == Times(Product(actions, later, Price), Product(Between(actions, day, later), day, Price))
  {
    hide Times, Ratio;
    if actions == [] {
      TimesCommutes(1.0, 1.0);
    } else {
      var n := |actions| - 1;
      var a := actions[n];
      ProductSplits(actions[..n], day, later);
      var q, b := Product(actions[..n], later, Price), Product(Between(actions[..n], day, later), day, Price);
      if a.Covers(day) && a.exDate.value <= later {
        ProductExtends(Between(actions[..n], day, later), a, day, Price);
        TimesAssociates(q, b, Factor(a, day, Price));
        TimesCommutes(q, 1.0);
      } else {
        assert Factor(a, day, Price) == Factor(a, later, Price);
        TimesSwaps(q, b, Factor(a, day, Price));
      }
    }
  }

  lemma DivideOut(x: real, y: real, f: real, g: real, c: real)
    requires y != 0.0 && f > 0.0 && Times(g, c) == 1.0
    ensures Times(y, Times(f, g)) != 0.0
    ensures Ratio(Times(x, f), Times(y, Times(f, g))) == Times(Ratio(x, y), c)
  {
    var denominator := y * (f * g);
    var q := x / y;
    assert q * y == x;
    NonZeroProduct(f, g, c);
    assert denominator != 0.0;
    assert (q * c) * denominator == x * f by {
      assert (q * c) * (y * (f * g)) == (q * y) * f * (g * c);
    }
  }

  lemma NonZeroProduct(f: real, g: real, c: real)
    requires f > 0.0 && g * c == 1.0
    ensures f * g != 0.0
  {
    var h := -g;
    assert g > 0.0 ==> f * g > 0.0;
    assert h > 0.0 ==> f * h > 0.0;
  }

  /** The ratio of a later price to an earlier one is the raw ratio times new / old of every split
      between them; in particular it is the raw one when there is none. */
  lemma RatioBetweenBars(actions: seq<Action>, day: int, later: int, price: real, laterPrice: real)
    requires day <= later && price != 0.0
    ensures var p, q := Times(price, Product(actions, day, Price)), Times(laterPrice, Product(actions, later, Price));
            var between := Between(actions, day, later);
            && p != 0.0
            && Ratio(q, p) == Times(Ratio(laterPrice, price), Product(between, day, Volume))
            && (between == [] ==> Ratio(q, p) == Ratio(laterPrice, price))
  {
    hide Times, Ratio, Product;
    var between := Between(actions, day, later);
    ProductSplits(actions, day, later);
    ProductsCancel(between, day);
    DivideOut(laterPrice, price,
              Product(actions, later, Price), Product(between, day, Price), Product(between, day, Volume));
    ProductOfNone(day, Volume);
    TimesCommutes(Ratio(laterPrice, price), 1.0);
  }

  // ---------------------------------------------------------------- what a holder has

  /** What so many shares held since a day have become by a later one: each split that takes effect in
      between gives new shares for old ones. */
  ghost function SharesAfter(actions: seq<Action>, day: int, later: int, shares: real): real {
    if actions == [] then shares
    else
      var n, a := |actions| - 1, actions[|actions| - 1];
      var before := SharesAfter(actions[..n], day, later, shares);
      if a.IsSplit() && a.oldRate.value > 0.0 && a.newRate.value > 0.0 && day < a.exDate.value <= later
      then Times(before, Ratio(a.newRate.value, a.oldRate.value)) else before
  }

  lemma {:induction false} SharesAreProduct(actions: seq<Action>, day: int, later: int)
    requires day <= later
    ensures SharesAfter(actions, day, later, 1.0) == Product(Between(actions, day, later), day, Volume)
  {
    hide Times, Ratio;
    if actions != [] {
      var n, a := |actions| - 1, actions[|actions| - 1];
      SharesAreProduct(actions[..n], day, later);
      if a.Covers(day) && a.exDate.value <= later {
        ProductExtends(Between(actions[..n], day, later), a, day, Volume);
      }
    }
  }

  lemma {:induction false} NoSplitLeft(actions: seq<Action>, day: int)
    requires forall a :: a in actions ==> !a.Covers(day)
    ensures Product(actions, day, Price) == 1.0
  {
    hide Times;
    if actions != [] {
      NoSplitLeft(actions[..|actions| - 1], day);
      TimesCommutes(1.0, 1.0);
    }
  }

  /** The normalised return between two bars is the return of a holder: of the raw price of one share to the
      raw value of what that share has become. A bar after all splits keeps its raw price. */
  lemma ReturnIsHolders(actions: seq<Action>, day: int, later: int, price: real, laterPrice: real)
    requires day <= later && price != 0.0
    ensures var p, q := Times(price, Product(actions, day, Price)), Times(laterPrice, Product(actions, later, Price));
            && p != 0.0
            && Ratio(q, p) == Ratio(Times(SharesAfter(actions, day, later, 1.0), laterPrice), price)
            && ((forall a :: a in actions ==> !a.Covers(later)) ==> q == laterPrice)
  {
    hide Times, Ratio, Product;
    RatioBetweenBars(actions, day, later, price, laterPrice);
    SharesAreProduct(actions, day, later);
    RatioOfValue(SharesAfter(actions, day, later, 1.0), laterPrice, price);
    if forall a :: a in actions ==> !a.Covers(later) {
      NoSplitLeft(actions, later);
      TimesCommutes(laterPrice, 1.0);
    }
  }

  lemma RatioOfValue(shares: real, later: real, price: real)
    requires price != 0.0
    ensures Times(Ratio(later, price), shares) == Ratio(Times(shares, later), price)
  {
    var q := later / price;
    assert q * price == later;
    assert (q * shares) * price == shares * later;
    DividedBy(shares * later, price, q * shares);
  }

  lemma DividedBy(a: real, b: real, q: real)
    requires b != 0.0 && q * b == a
    ensures a / b == q
  {
    var r := a / b;
    assert (r - q) * b == 0.0;
  }
}
