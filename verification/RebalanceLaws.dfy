/**
 What one session of Rebalance does to an account, read off the books before and after it.

 Main result (SessionLaws): every holding above its target by more than the threshold is sold down to it
 and no other one is sold; then exactly the assets short of their targets are bought, the largest shortfall
 first, each with the smaller of its shortfall and the cash above the reserve, until that is used up.
 */
module RebalanceLaws {
  import opened Common
  import opened Linear
  import opened Rebalance
  import B = BuySizing
  import L = Ledger

  // ---------------------------------------------------------------- sales

  /** A holding that exceeds its target by no more than the threshold is kept. Otherwise the excess is sold at
      the price, or everything if that is less; of whole shares as many as fit into the excess. */
  ghost predicate RightlySold(held: real, kept: real, excess: real, threshold: real, price: real, config: B.Config) {
    var sold := held - kept;
    if held <= 0.0 || excess <= threshold then sold == 0.0
    else
      && 0.0 <= sold <= held
      && (config.fractionalShares ==>
            Times(sold, price) <= excess && (sold == held || Times(sold, price) == excess))
      && (!config.fractionalShares ==>
            && IsWhole(sold) && Times(sold - FLOOR_TOLERANCE, price) <= excess
            && (sold == held || Times(sold + 1.0 - FLOOR_TOLERANCE, price) > excess))
  }

  function SalePrice(open: real, config: B.Config): real { Max(B.Slip(open, B.Sell, config), FLOOR_TOLERANCE) }

  lemma SharesForValue(value: real, price: real)
    requires value > 0.0
    ensures SharesFor(value, price) > 0.0
    ensures Times(SharesFor(value, price), Max(price, FLOOR_TOLERANCE)) == value
  {
    var p := Max(price, FLOOR_TOLERANCE);
    var q := value / p;
    assert q * p == value;
    assert q <= 0.0 ==> q * p <= 0.0;
  }

  lemma TimesStrict(p: real, x: real, y: real)
    requires p > 0.0
    ensures x <= y <==> Times(x, p) <= Times(y, p)
  {
    var d := y - x;
    assert d * p == y * p - x * p;
    assert d > 0.0 ==> d * p > 0.0;
    assert d < 0.0 ==> d * p < 0.0;
  }

  /** The quantity of a sale is the right one. */
  lemma QuantityIsRight(held: real, excess: real, threshold: real, price: real, config: B.Config)
    requires held > 0.0 && excess > threshold > 0.0 && (config.fractionalShares || IsWhole(held))
    ensures var quantity := SellQuantity(held, excess, price, config);
            var kept := if quantity <= 0.0 then held else Max(0.0, held - quantity);
            && RightlySold(held, kept, excess, threshold, Max(price, FLOOR_TOLERANCE), config)
            && kept >= 0.0 && (config.fractionalShares || IsWhole(kept))
  {
    var p, shares := Max(price, FLOOR_TOLERANCE), SharesFor(excess, price);
    var quantity := SellQuantity(held, excess, price, config);
    SharesForValue(excess, price);
    hide SharesFor, Times;
    TimesStrict(p, quantity, shares);
    TimesStrict(p, quantity - FLOOR_TOLERANCE, shares);
    TimesStrict(p, quantity + 1.0 - FLOOR_TOLERANCE, shares);
    if !config.fractionalShares {
      SellWithinHolding(held, quantity, config);
      assert ((0.0).Floor as real) == 0.0;
      assert quantity <= 0.0 ==> quantity == 0.0;
    }
  }

  /** After the first n assets: each of them rightly sold, the others untouched. */
  lemma {:induction false} SalesAreRight(b: Book, opens: seq<real>, targets: seq<real>, threshold: real,
                                         config: B.Config, n: nat)
    requires |opens| == |targets| == |b.shares| && n <= |opens| && threshold > 0.0 && ValidHoldings(b.shares, config)
    ensures var c := SoldDown(b, opens, targets, threshold, config, n);
            && ValidHoldings(c.shares, config)
            && (forall k :: n <= k < |b.shares| ==> c.shares[k] == b.shares[k])
            && (forall k :: 0 <= k < n ==>
                  RightlySold(b.shares[k], c.shares[k], B.TradeValue(b.shares[k], opens[k]) - targets[k], threshold,
                              SalePrice(opens[k], config), config))
  {
    hide RightlySold, B.TradeValue, B.Slip, B.ReferenceFees, SellQuantity, IsWhole;
    if n > 0 {
      SalesAreRight(b, opens, targets, threshold, config, n - 1);
      var k := n - 1;
      var held, excess := b.shares[k], B.TradeValue(b.shares[k], opens[k]) - targets[k];
      assert held >= 0.0 && (config.fractionalShares || IsWhole(held));
      if held > 0.0 && excess > threshold {
        QuantityIsRight(held, excess, threshold, B.Slip(opens[k], B.Sell, config), config);
      } else {
        NothingSold(held, excess, threshold, SalePrice(opens[k], config), config);
      }
    }
  }

  lemma NothingSold(held: real, excess: real, threshold: real, price: real, config: B.Config)
    requires held <= 0.0 || excess <= threshold
    ensures RightlySold(held, held, excess, threshold, price, config)
  {
  }

  // ---------------------------------------------------------------- needs

  lemma {:induction false} NeedsMean(shares: seq<real>, opens: seq<real>, targets: seq<real>, threshold: real, n: nat)
    requires |opens| == |targets| == |shares| && n <= |shares| && threshold > 0.0
    ensures var needs := NeedsOf(shares, opens, targets, threshold, n);
            && InOrder(needs)
            && forall m :: m in needs <==> m.asset < n && m.amount == targets[m.asset]
                                           - B.TradeValue(shares[m.asset], opens[m.asset]) > threshold
  {
    hide InsertNeed, B.TradeValue;
    if n > 0 {
      NeedsMean(shares, opens, targets, threshold, n - 1);
      var shortfall := Shortfall(shares[n - 1], opens[n - 1], targets[n - 1]);
      if shortfall > threshold {
        InsertNeedInOrder(NeedsOf(shares, opens, targets, threshold, n - 1), Need(n - 1, shortfall));
      }
    }
  }

  lemma {:induction false} InOrderAt(needs: seq<Need>, i: nat, j: nat)
    requires InOrder(needs) && i < j < |needs|
    ensures Precedes(needs[i], needs[j])
  {
    if i == 0 {
      assert needs[j] == needs[1..][j - 1];
    } else {
      InOrderAt(needs[1..], i - 1, j - 1);
    }
  }

  ghost predicate Distinct(needs: seq<Need>) {
    forall i, j :: 0 <= i < j < |needs| ==> needs[i].asset != needs[j].asset
  }

  /** Larger shortfalls first, so no asset twice. */
  lemma NeedsAreDistinct(needs: seq<Need>)
    requires InOrder(needs)
    requires forall m, n :: m in needs && n in needs && m.asset == n.asset ==> m.amount == n.amount
    ensures Distinct(needs)
  {
    forall i, j | 0 <= i < j < |needs|
      ensures needs[i].asset != needs[j].asset
    {
      InOrderAt(needs, i, j);
      assert needs[i] in needs && needs[j] in needs;
    }
  }

  // ---------------------------------------------------------------- purchases

  /** One need's turn with some cash: without cash above the reserve nothing is bought; otherwise what the
      smaller of the shortfall and that cash buys at the slipped price, and that is paid with its fee. */
  ghost predicate Turn(cash: real, later: real, amount: real, bought: real, open: real, reserve: real,
                       config: B.Config)
  {
    var price := B.Slip(open, B.Buy, config);
    if cash <= reserve then bought == 0.0 && later == cash
    else
      && price > 0.0 && bought == B.BuyQuantity(Min(amount, cash - reserve), price, config) >= 0.0
      && later == cash - (if bought > 0.0 then B.TradeValue(bought, price) + B.BuyFee(bought, price, config) else 0.0)
      && (price <= B.MAX_PRICE ==> later >= reserve)
  }

  lemma OneTurn(b: Book, need: Need, opens: seq<real>, reserve: real, config: B.Config)
    requires config.Valid() && |opens| == |b.shares| && need.asset < |opens| && Positive(opens)
    requires reserve >= 0.0 && need.amount > 0.0 && b.cash > reserve
    ensures var n := BoughtOne(b, need, opens, reserve, config); var k := need.asset;
            && Turn(b.cash, n.cash, need.amount, n.shares[k] - b.shares[k], opens[k], reserve, config)
            && forall j :: 0 <= j < |b.shares| && j != k ==> n.shares[j] == b.shares[j]
  {
    hide B.Slip, B.BuyQuantity, B.TradeValue, B.ReferenceFees, B.Order.Size, B.Order.Start, B.StepFee;
    var price := B.Slip(opens[need.asset], B.Buy, config);
    var budget := Min(need.amount, b.cash - reserve);
    B.SlipPositive(opens[need.asset], config);
    QuantityCovered(budget, price, config);
  }

  lemma QuantityCovered(budget: real, price: real, config: B.Config)
    requires config.Valid() && price > 0.0 && budget >= 0.0
    ensures var q := B.BuyQuantity(budget, price, config);
            q >= 0.0 && (price <= B.MAX_PRICE ==> B.TradeValue(q, price) + B.BuyFee(q, price, config) <= budget)
  {
    hide B.TradeValue, B.ReferenceFees, B.Order.Size, B.Order.Start, B.StepFee;
    B.BuyOrderAffordable(budget, price, config);
  }

  /** The i-th need has its turn, and no other holding moves. */
  lemma NextTurn(b: Book, needs: seq<Need>, opens: seq<real>, reserve: real, config: B.Config, i: nat)
    requires config.Valid() && |opens| == |b.shares| && ValidNeeds(needs, |opens|) && Positive(opens)
    requires i < |needs| && reserve >= 0.0
    ensures var c := BoughtUp(b, needs, opens, reserve, config, i);
            var n := BoughtUp(b, needs, opens, reserve, config, i + 1);
            var k := needs[i].asset;
            && Turn(c.cash, n.cash, needs[i].amount, n.shares[k] - c.shares[k], opens[k], reserve, config)
            && forall j :: 0 <= j < |b.shares| && j != k ==> n.shares[j] == c.shares[j]
  {
    hide BoughtOne, B.Slip, B.BuyQuantity, B.TradeValue, B.BuyFee;
    var c := BoughtUp(b, needs, opens, reserve, config, i);
    if c.cash > reserve {
      OneTurn(c, needs[i], opens, reserve, config);
    }
  }

  lemma {:induction false} SharesStay(b: Book, needs: seq<Need>, opens: seq<real>, reserve: real, config: B.Config,
                                      n: nat, m: nat, k: nat)
    requires config.Valid() && |opens| == |b.shares| && ValidNeeds(needs, |opens|) && Positive(opens)
    requires n <= m <= |needs| && reserve >= 0.0 && k < |b.shares|
    requires forall i :: n <= i < m ==> needs[i].asset != k
    ensures BoughtUp(b, needs, opens, reserve, config, m).shares[k]
            == BoughtUp(b, needs, opens, reserve, config, n).shares[k]
    decreases m
  {
    hide BoughtUp, Turn;
    if n < m {
      NextTurn(b, needs, opens, reserve, config, m - 1);
      SharesStay(b, needs, opens, reserve, config, n, m - 1, k);
    }
  }

  /** The cash before turn i. */
  ghost function CashBefore(b: Book, needs: seq<Need>, opens: seq<real>, reserve: real, config: B.Config, i: nat): real
    requires config.Valid() && |opens| == |b.shares| && ValidNeeds(needs, |opens|) && Positive(opens) && i <= |needs|
  {
    BoughtUp(b, needs, opens, reserve, config, i).cash
  }

  lemma {:induction false} CashOfTurns(b: Book, needs: seq<Need>, opens: seq<real>, reserve: real, config: B.Config,
                                       n: nat)
    returns (turns: seq<real>)
    requires config.Valid() && |opens| == |b.shares| && ValidNeeds(needs, |opens|) && Positive(opens) && n <= |needs|
    ensures |turns| == n + 1
    ensures forall i :: 0 <= i <= n ==> turns[i] == CashBefore(b, needs, opens, reserve, config, i)
  {
    hide CashBefore, Positive, ValidNeeds;
    turns := [];
    if n > 0 {
      turns := CashOfTurns(b, needs, opens, reserve, config, n - 1);
    }
    turns := turns + [CashBefore(b, needs, opens, reserve, config, n)];
  }

  lemma PurchasesAreRight(b: Book, needs: seq<Need>, opens: seq<real>, reserve: real, config: B.Config, i: nat)
    requires config.Valid() && |opens| == |b.shares| && ValidNeeds(needs, |opens|) && Positive(opens)
    requires i < |needs| && reserve >= 0.0 && Distinct(needs)
    ensures var after := BoughtUp(b, needs, opens, reserve, config, |needs|);
            var k := needs[i].asset;
            Turn(CashBefore(b, needs, opens, reserve, config, i), CashBefore(b, needs, opens, reserve, config, i + 1),
                 needs[i].amount, after.shares[k] - b.shares[k], opens[k], reserve, config)
  {
    hide Turn, BoughtUp, Positive;
    CashAtEnds(b, needs, opens, reserve, config);
    var k := needs[i].asset;
    NextTurn(b, needs, opens, reserve, config, i);
    SharesStay(b, needs, opens, reserve, config, 0, i, k);
    SharesStay(b, needs, opens, reserve, config, i + 1, |needs|, k);
  }

  // ---------------------------------------------------------------- the whole session

  /** The shortfall of an asset against its weight of the account. */
  function Missing(value: real, weight: real, held: real, open: real): real {
    Times(value, Max(0.0, weight)) - B.TradeValue(held, open)
  }

  /** Every asset is rightly sold down to its weight of the account. */
  ghost predicate SoldToTargets(b: Book, sold: Book, value: real, weights: seq<real>, opens: seq<real>, threshold: real,
                                config: B.Config)
  {
    && |b.shares| == |sold.shares| == |weights| == |opens|
    && forall k :: 0 <= k < |b.shares| ==>
         RightlySold(b.shares[k], sold.shares[k], -Missing(value, weights[k], b.shares[k], opens[k]), threshold,
                     SalePrice(opens[k], config), config)
  }

  /** The needs are exactly the assets that miss more than the threshold, the largest first. */
  ghost predicate NeedsAre(needs: seq<Need>, sold: Book, value: real, weights: seq<real>, opens: seq<real>,
                           threshold: real)
  {
    && |sold.shares| == |weights| == |opens| && InOrder(needs)
    && forall n :: n in needs <==>
         n.asset < |weights|
         && n.amount == Missing(value, weights[n.asset], sold.shares[n.asset], opens[n.asset]) > threshold
  }

  /** The needs have their turns in that order with the cash that is left, and nothing else is bought. */
  ghost predicate BoughtInTurn(sold: Book, after: Book, needs: seq<Need>, turns: seq<real>, opens: seq<real>,
                               reserve: real, config: B.Config)
  {
    && |sold.shares| == |after.shares| == |opens|
    && |turns| == |needs| + 1 && turns[0] == sold.cash && turns[|needs|] == after.cash
    && (forall i :: 0 <= i < |needs| ==>
          && needs[i].asset < |opens|
          && Turn(turns[i], turns[i + 1], needs[i].amount,
                  after.shares[needs[i].asset] - sold.shares[needs[i].asset], opens[needs[i].asset], reserve, config))
    && (forall k :: 0 <= k < |opens| && (forall n :: n in needs ==> n.asset != k) ==> after.shares[k] == sold.shares[k])
  }

  lemma SalesOfSession(b: Book, value: real, weights: seq<real>, opens: seq<real>, threshold: real, config: B.Config)
    requires |opens| == |weights| == |b.shares| && threshold > 0.0 && ValidHoldings(b.shares, config)
    ensures var sold := SoldDown(b, opens, TargetValues(value, weights), threshold, config, |opens|);
            SoldToTargets(b, sold, value, weights, opens, threshold, config)
  {
    hide SoldDown, RightlySold, Times, B.TradeValue, SalePrice;
    SalesAreRight(b, opens, TargetValues(value, weights), threshold, config, |opens|);
  }

  lemma NeedsOfSession(sold: Book, value: real, weights: seq<real>, opens: seq<real>, threshold: real)
    requires |opens| == |weights| == |sold.shares| && threshold > 0.0
    ensures var needs := NeedsOf(sold.shares, opens, TargetValues(value, weights), threshold, |opens|);
            NeedsAre(needs, sold, value, weights, opens, threshold) && Distinct(needs)
  {
    hide NeedsOf, InOrder, Times, B.TradeValue, Distinct;
    NeedsMean(sold.shares, opens, TargetValues(value, weights), threshold, |opens|);
    NeedsAreDistinct(NeedsOf(sold.shares, opens, TargetValues(value, weights), threshold, |opens|));
  }

  lemma PurchasesOfSession(sold: Book, needs: seq<Need>, opens: seq<real>, reserve: real, config: B.Config)
    returns (turns: seq<real>)
    requires config.Valid() && |opens| == |sold.shares| && ValidNeeds(needs, |opens|) && Positive(opens)
    requires reserve >= 0.0 && Distinct(needs)
    ensures BoughtInTurn(sold, BoughtUp(sold, needs, opens, reserve, config, |needs|), needs, turns, opens, reserve,
                         config)
  {
    hide BoughtUp, Turn, Positive, Distinct, CashBefore;
    turns := CashOfTurns(sold, needs, opens, reserve, config, |needs|);
    CashAtEnds(sold, needs, opens, reserve, config);
    var after := BoughtUp(sold, needs, opens, reserve, config, |needs|);
    forall i | 0 <= i < |needs|
      ensures Turn(turns[i], turns[i + 1], needs[i].amount,
                   after.shares[needs[i].asset] - sold.shares[needs[i].asset], opens[needs[i].asset], reserve, config)
    {
      PurchasesAreRight(sold, needs, opens, reserve, config, i);
    }
    forall k | 0 <= k < |opens| && forall n :: n in needs ==> n.asset != k
      ensures after.shares[k] == sold.shares[k]
    {
      assert forall i :: 0 <= i < |needs| ==> needs[i] in needs;
      SharesStay(sold, needs, opens, reserve, config, 0, |needs|, k);
    }
  }

  /** From the account's value at the opens and the answered weights: what is sold, what is then needed, in
      which order it is bought with which cash, and what is left alone. */
  lemma SessionLaws(b: Book, opens: seq<real>, allocation: Allocation, config: B.Config)
    returns (sold: Book, needs: seq<Need>, turns: seq<real>)
    requires config.Valid() && |opens| == |allocation.weights| == |b.shares| && Positive(opens)
    requires ValidHoldings(b.shares, config)
    ensures var value := AccountValue(b.cash, b.shares, opens);
            var threshold := Max(0.01, value * 0.0000001);
            var reserve := Max(0.0, Times(value, allocation.cashWeight));
            && SoldToTargets(b, sold, value, allocation.weights, opens, threshold, config)
            && NeedsAre(needs, sold, value, allocation.weights, opens, threshold)
            && BoughtInTurn(sold, Rebalanced(b, opens, allocation, config), needs, turns, opens, reserve, config)
  {
    hide SoldDown, BoughtUp, NeedsOf, SoldToTargets, NeedsAre, BoughtInTurn, AccountValue, Times, Distinct;
    hide ValidHoldings, Positive, TargetValues;
    EquityIsValue(b.cash, b.shares, opens);
    hide Equity;
    var value := AccountValue(b.cash, b.shares, opens);
    ThresholdIsPositive(value);
    ReserveIs(value, allocation.cashWeight);
    hide Reserve;
    var targets, reserve := TargetValues(value, allocation.weights), Reserve(value, allocation.cashWeight);
    sold := SoldDown(b, opens, targets, Threshold(value), config, |opens|);
    SalesOfSession(b, value, allocation.weights, opens, Threshold(value), config);
    needs := NeedsOf(sold.shares, opens, targets, Threshold(value), |opens|);
    NeedsOfSession(sold, value, allocation.weights, opens, Threshold(value));
    turns := PurchasesOfSession(sold, needs, opens, reserve, config);
  }

  lemma CashAtEnds(b: Book, needs: seq<Need>, opens: seq<real>, reserve: real, config: B.Config)
    requires config.Valid() && |opens| == |b.shares| && ValidNeeds(needs, |opens|) && Positive(opens)
    ensures BoughtUp(b, needs, opens, reserve, config, 0) == b
    ensures CashBefore(b, needs, opens, reserve, config, 0) == b.cash
    ensures CashBefore(b, needs, opens, reserve, config, |needs|)
            == BoughtUp(b, needs, opens, reserve, config, |needs|).cash
  {
  }

  lemma ReserveIs(equity: real, cashWeight: real)
    ensures Reserve(equity, cashWeight) == Max(0.0, Times(equity, cashWeight)) >= 0.0
  {
  }
}
