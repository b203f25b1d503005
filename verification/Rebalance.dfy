/**
 Cash and share accounting of the multi-asset simulation of engine/capital_rotation.py
 (_simulate_optimized_allocation): sell down, buy up in order of need, keep the cash reserve,
 liquidate at the end.

 Main result (Simulate): for every sequence of target weights the guard against overspending is
 never hit, no purchase reaches into the cash reserve, the cash is the one the trade log implies,
 and at the end every share that was bought has been sold. What a session sells and buys is in
 RebalanceLaws.
 */
module Rebalance {
  import opened Common
  import opened Linear
  import B = BuySizing
  import L = Ledger

  const OVERSPEND_TOLERANCE: real := 0.0000001
  const FLOOR_TOLERANCE: real := 0.000000000001

  datatype Allocation = Allocation(weights: seq<real>, cashWeight: real)

  datatype Error = InvalidEquity | SizingExceededCash | IntervalTooShort

  /** Shares of one asset implied by a log. */
  function NetQuantity(trades: seq<L.Trade>, asset: nat): real {
    if trades == [] then 0.0
    else
      var last := trades[|trades| - 1];
      NetQuantity(trades[..|trades| - 1], asset)
      + (if last.asset != asset then 0.0 else if last.action.BUY? then last.quantity else -last.quantity)
  }

  predicate IsWhole(x: real) { x.Floor as real == x }

  /** Holdings are non-negative, and whole numbers when fractions are not allowed. */
  ghost predicate ValidHoldings(shares: seq<real>, config: B.Config) {
    forall k {:trigger shares[k]} :: 0 <= k < |shares| ==>
      shares[k] >= 0.0 && (config.fractionalShares || IsWhole(shares[k]))
  }

  ghost predicate SharesMatchLog(shares: seq<real>, trades: seq<L.Trade>) {
    forall k {:trigger shares[k]} :: 0 <= k < |shares| ==> shares[k] == NetQuantity(trades, k)
  }

  ghost predicate Booked(initial: real, cash: real, shares: seq<real>, trades: seq<L.Trade>, config: B.Config) {
    && cash == L.CashReplay(initial, trades)
    && ValidHoldings(shares, config)
    && SharesMatchLog(shares, trades)
  }

  ghost predicate Positive(prices: seq<real>) {
    forall k :: 0 <= k < |prices| ==> prices[k] > 0.0
  }

  predicate ValidPrices(prices: seq<real>, config: B.Config) {
    forall k :: 0 <= k < |prices| ==> prices[k] > 0.0 && B.Slip(prices[k], B.Buy, config) <= B.MAX_PRICE
  }

  /** A trade moves one asset and the cash; everything else stays. */
  lemma BookTrade(initial: real, cash: real, shares: seq<real>, trades: seq<L.Trade>, config: B.Config, t: L.Trade,
                  held: real)
    requires Booked(initial, cash, shares, trades, config) && t.asset < |shares|
    requires t.cashAfter == cash + L.CashFlow(t)
    requires held == shares[t.asset] + (if t.action.BUY? then t.quantity else -t.quantity)
    requires held >= 0.0 && (config.fractionalShares || IsWhole(held))
    ensures Booked(initial, t.cashAfter, shares[t.asset := held], trades + [t], config)
  {
    assert (trades + [t])[..|trades|] == trades;
    var after := shares[t.asset := held];
    forall k | 0 <= k < |after|
      ensures after[k] == NetQuantity(trades + [t], k)
      ensures after[k] >= 0.0 && (config.fractionalShares || IsWhole(after[k]))
    {
      assert shares[k] == NetQuantity(trades, k);
    }
  }

  /** Cash, shares and trade log. */
  datatype Book = Book(cash: real, shares: seq<real>, trades: seq<L.Trade>)

  function Recorded(b: Book, t: L.Trade, held: real): Book
    requires t.asset < |b.shares|
  {
    Book(t.cashAfter, b.shares[t.asset := held], b.trades + [t])
  }

  /** The sale of a quantity of asset k at a raw price. */
  function Sale(action: L.Action, k: nat, quantity: real, rawPrice: real, cash: real, config: B.Config): L.Trade {
    var price := B.Slip(rawPrice, B.Sell, config);
    var fee := B.ReferenceFees(B.Sell, quantity, price, config).Total();
    var gross := B.TradeValue(quantity, price);
    L.Trade(action, k, price, quantity, gross, fee, 0.0, cash + (gross - fee))
  }

  /** The first n assets sold down to their targets. */
  function SoldDown(b: Book, opens: seq<real>, targets: seq<real>, threshold: real, config: B.Config,
                    n: nat): (after: Book)
    requires |opens| == |targets| == |b.shares| && n <= |opens| && threshold > 0.0
    ensures |after.shares| == |b.shares|
  {
    if n == 0 then b
    else
      var k := n - 1;
      var c := SoldDown(b, opens, targets, threshold, config, k);
      var held := c.shares[k];
      var value := B.TradeValue(held, opens[k]);
      if held <= 0.0 || value <= targets[k] + threshold then c
      else
        var quantity := SellQuantity(held, value - targets[k], B.Slip(opens[k], B.Sell, config), config);
        if quantity <= 0.0 then c
        else Recorded(c, Sale(L.SELL, k, quantity, opens[k], c.cash, config), Max(0.0, held - quantity))
  }

  /** The purchase of asset k with at most a budget. */
  function Purchase(k: nat, budget: real, rawPrice: real, cash: real, config: B.Config): L.Trade
    requires config.Valid() && rawPrice > 0.0
  {
    B.SlipPositive(rawPrice, config);
    var price := B.Slip(rawPrice, B.Buy, config);
    var quantity := B.BuyQuantity(budget, price, config);
    var fee := B.ReferenceFees(B.Buy, quantity, price, config).Total();
    var gross := B.TradeValue(quantity, price);
    L.Trade(L.BUY, k, price, quantity, gross, fee, 0.0, cash - (gross + fee))
  }

  function Spendable(b: Book, reserve: real): real { Max(0.0, b.cash - reserve) }

  ghost predicate ValidNeeds(needs: seq<Need>, n: nat) {
    forall i :: 0 <= i < |needs| ==> needs[i].asset < n && needs[i].amount > 0.0
  }

  /** The first need bought, if anything can be spent on it. */
  function BoughtOne(b: Book, need: Need, opens: seq<real>, reserve: real, config: B.Config): (after: Book)
    requires config.Valid() && |opens| == |b.shares| && need.asset < |opens| && Positive(opens)
    ensures |after.shares| == |b.shares|
  {
    hide B.Slip, B.BuyQuantity;
    var t := Purchase(need.asset, Min(need.amount, Spendable(b, reserve)), opens[need.asset], b.cash, config);
    if t.quantity <= 0.0 then b else Recorded(b, t, b.shares[need.asset] + t.quantity)
  }

  /** The first n needs bought in order while cash above the reserve is left. */
  function BoughtUp(b: Book, needs: seq<Need>, opens: seq<real>, reserve: real, config: B.Config, n: nat): (after: Book)
    requires config.Valid() && |opens| == |b.shares| && ValidNeeds(needs, |opens|) && Positive(opens) && n <= |needs|
    ensures |after.shares| == |b.shares|
  {
    if n == 0 then b
    else
      var c := BoughtUp(b, needs, opens, reserve, config, n - 1);
      if Spendable(c, reserve) <= 0.0 then c else BoughtOne(c, needs[n - 1], opens, reserve, config)
  }

  lemma {:induction false} NothingLeft(b: Book, needs: seq<Need>, opens: seq<real>, reserve: real, config: B.Config,
                                       n: nat, m: nat)
    requires config.Valid() && |opens| == |b.shares| && ValidNeeds(needs, |opens|) && Positive(opens)
             && n <= m <= |needs|
    requires n == m || Spendable(BoughtUp(b, needs, opens, reserve, config, n), reserve) <= 0.0
    ensures BoughtUp(b, needs, opens, reserve, config, m) == BoughtUp(b, needs, opens, reserve, config, n)
    decreases m
  {
    hide BoughtOne;
    if n < m {
      NothingLeft(b, needs, opens, reserve, config, n, m - 1);
    }
  }

  function Equity(cash: real, shares: seq<real>, opens: seq<real>): real
    requires |shares| == |opens|
  {
    if shares == [] then cash
    else Equity(cash, shares[..|shares| - 1], opens[..|opens| - 1])
         + B.TradeValue(shares[|shares| - 1], opens[|opens| - 1])
  }

  /** The cash plus every holding at its price. */
  function AccountValue(cash: real, shares: seq<real>, prices: seq<real>): real
    requires |shares| == |prices|
  {
    cash + Dot(shares, prices)
  }

  lemma {:induction false} EquityIsValue(cash: real, shares: seq<real>, opens: seq<real>)
    requires |shares| == |opens|
    ensures Equity(cash, shares, opens) == AccountValue(cash, shares, opens)
  {
    if shares != [] {
      var k := |shares| - 1;
      EquityIsValue(cash, shares[..k], opens[..k]);
      assert shares == shares[..k] + [shares[k]];
      DotConcat(shares[..k], [shares[k]], opens);
      assert opens[k..] == [opens[k]];
      DotOne(shares[k], opens[k]);
    }
  }

  lemma DotOne(a: real, x: real)
    ensures Dot([a], [x]) == B.TradeValue(a, x)
  {
    assert Dot([], []) == 0.0;
    assert [a][1..] == [] && [x][1..] == [];
  }

  function Threshold(equity: real): real { Max(0.01, equity * 0.0000001) }

  /** The quantity to sell: what exceeds the target, at most what is held. */
  function SellQuantity(held: real, excess: real, price: real, config: B.Config): (quantity: real)
    requires excess > 0.0
    ensures config.fractionalShares ==> quantity <= held
    ensures !config.fractionalShares ==> IsWhole(quantity) && (IsWhole(held) ==> quantity <= held)
  {
    var sold := Min(held, SharesFor(excess, price));
    if config.fractionalShares then sold
    else
      FloorStaysWithin(sold, held);
      (sold + FLOOR_TOLERANCE).Floor as real
  }

  function SharesFor(value: real, price: real): real { value / Max(price, FLOOR_TOLERANCE) }

  lemma FloorStaysWithin(sold: real, held: real)
    requires sold <= held
    ensures IsWhole((sold + FLOOR_TOLERANCE).Floor as real)
    ensures IsWhole(held) ==> (sold + FLOOR_TOLERANCE).Floor as real <= held
  {
  }

  method SellDown(initial: real, cash0: real, shares: array<real>, trades0: seq<L.Trade>, opens: seq<real>,
                  targets: seq<real>, threshold: real, config: B.Config)
    returns (cash: real, trades: seq<L.Trade>)
    requires |opens| == |targets| == shares.Length && threshold > 0.0
    requires Booked(initial, cash0, shares[..], trades0, config)
    modifies shares
    ensures Book(cash, shares[..], trades)
            == SoldDown(Book(cash0, old(shares[..]), trades0), opens, targets, threshold, config, shares.Length)
    ensures Booked(initial, cash, shares[..], trades, config)
    ensures trades0 <= trades
    ensures forall i :: |trades0| <= i < |trades| ==> trades[i].action.SELL?
    ensures AllPriced(trades0, trades, opens, config)
  {
    hide B.Slip, B.ReferenceFees, B.TradeValue, L.CashReplay, Booked, SellQuantity;
    cash, trades := cash0, trades0;
    ghost var b := Book(cash0, shares[..], trades0);
    var k := 0;
    while k < shares.Length
      invariant 0 <= k <= shares.Length
      invariant Book(cash, shares[..], trades) == SoldDown(b, opens, targets, threshold, config, k)
      invariant Booked(initial, cash, shares[..], trades, config)
      invariant trades0 <= trades
      invariant forall i :: |trades0| <= i < |trades| ==> trades[i].action.SELL?
      invariant AllPriced(trades0, trades, opens, config)
    {
      var held := shares[k];
      var value := B.TradeValue(held, opens[k]);
      if held > 0.0 && value > targets[k] + threshold {
        var price := B.Slip(opens[k], B.Sell, config);
        var quantity := SellQuantity(held, value - targets[k], price, config);
        if quantity > 0.0 {
          var fee := B.ReferenceFees(B.Sell, quantity, price, config).Total();
          var gross := B.TradeValue(quantity, price);
          var t := L.Trade(L.SELL, k, price, quantity, gross, fee, 0.0, cash + (gross - fee));
          HoldingIsValid(initial, cash, shares[..], trades, config, k);
          SellWithinHolding(held, quantity, config);
          BookTrade(initial, cash, shares[..], trades, config, t, held - quantity);
          ghost var before := shares[..];
          shares[k] := Max(0.0, held - quantity);
          assert shares[..] == before[k := held - quantity];
          cash, trades := t.cashAfter, trades + [t];
        }
      }
      k := k + 1;
    }
  }

  lemma SellWithinHolding(held: real, quantity: real, config: B.Config)
    requires config.fractionalShares || IsWhole(held)
    requires config.fractionalShares ==> quantity <= held
    requires !config.fractionalShares ==> IsWhole(quantity) && (IsWhole(held) ==> quantity <= held)
    ensures quantity <= held && (config.fractionalShares || IsWhole(held - quantity))
  {
    if !config.fractionalShares {
      var x, y := held.Floor, quantity.Floor;
      assert held - quantity == (x - y) as real;
      assert ((x - y) as real).Floor == x - y;
    }
  }

  lemma HoldingIsValid(initial: real, cash: real, shares: seq<real>, trades: seq<L.Trade>, config: B.Config, k: nat)
    requires Booked(initial, cash, shares, trades, config) && k < |shares|
    ensures shares[k] >= 0.0 && (config.fractionalShares || IsWhole(shares[k]))
  {
    hide NetQuantity;
    hide L.CashReplay;
  }

  // ---------------------------------------------------------------- purchases

  datatype Need = Need(asset: nat, amount: real)

  /** Largest need first, ties in symbol order: the new need has the largest symbol so far. */
  function InsertNeed(needs: seq<Need>, n: Need): (longer: seq<Need>)
    ensures |longer| == |needs| + 1 && forall i :: 0 <= i < |longer| ==> longer[i] == n || longer[i] in needs
  {
    if needs == [] then [n]
    else if n.amount > needs[0].amount then [n] + needs
    else [needs[0]] + InsertNeed(needs[1..], n)
  }

  predicate Precedes(a: Need, b: Need) {
    a.amount > b.amount || (a.amount == b.amount && a.asset < b.asset)
  }

  ghost predicate InOrder(needs: seq<Need>) {
    needs != [] ==> (forall n :: n in needs[1..] ==> Precedes(needs[0], n)) && InOrder(needs[1..])
  }

  lemma {:induction false} InsertNeedInOrder(needs: seq<Need>, n: Need)
    requires InOrder(needs) && forall m :: m in needs ==> m.asset < n.asset
    ensures InOrder(InsertNeed(needs, n))
    ensures forall m :: m in InsertNeed(needs, n) <==> m == n || m in needs
  {
    if needs != [] {
      assert needs == [needs[0]] + needs[1..];
      if n.amount > needs[0].amount {
        assert ([n] + needs)[1..] == needs;
        assert forall m :: m in needs ==> m == needs[0] || Precedes(needs[0], m);
      } else {
        InsertNeedInOrder(needs[1..], n);
        assert InsertNeed(needs, n)[1..] == InsertNeed(needs[1..], n);
      }
    }
  }

  /** The needs of the first n assets, largest first. */
  function NeedsOf(shares: seq<real>, opens: seq<real>, targets: seq<real>, threshold: real, n: nat): (needs: seq<Need>)
    requires |opens| == |targets| == |shares| && n <= |shares| && threshold > 0.0
    ensures ValidNeeds(needs, n)
  {
    if n == 0 then []
    else
      var before := NeedsOf(shares, opens, targets, threshold, n - 1);
      var shortfall := Shortfall(shares[n - 1], opens[n - 1], targets[n - 1]);
      if shortfall > threshold then InsertNeed(before, Need(n - 1, shortfall)) else before
  }

  function Shortfall(held: real, open: real, target: real): real { target - B.TradeValue(held, open) }

  /** The assets below target by more than the threshold, largest shortfall first. */
  method BuyNeeds(shares: array<real>, opens: seq<real>, targets: seq<real>, threshold: real)
    returns (needs: seq<Need>)
    requires |opens| == |targets| == shares.Length && threshold > 0.0
    ensures needs == NeedsOf(shares[..], opens, targets, threshold, shares.Length)
    ensures InOrder(needs)
    ensures forall n :: n in needs <==>
              n.asset < shares.Length
              && n.amount == Shortfall(shares[n.asset], opens[n.asset], targets[n.asset]) > threshold
  {
    hide Shortfall, InsertNeed;
    needs := [];
    var k := 0;
    while k < shares.Length
      invariant 0 <= k <= shares.Length && InOrder(needs)
      invariant needs == NeedsOf(shares[..], opens, targets, threshold, k)
      invariant forall n :: n in needs <==>
                  n.asset < k && n.amount == Shortfall(shares[n.asset], opens[n.asset], targets[n.asset]) > threshold
    {
      var shortfall := Shortfall(shares[k], opens[k], targets[k]);
      if shortfall > threshold {
        InsertNeedInOrder(needs, Need(k, shortfall));
        needs := InsertNeed(needs, Need(k, shortfall));
      }
      k := k + 1;
    }
  }

  /** Buy the needs in order with the cash above the reserve. */
  method BuyUp(initial: real, cash0: real, shares: array<real>, trades0: seq<L.Trade>, opens: seq<real>,
               needs: seq<Need>, reserve: real, config: B.Config)
    returns (cash: real, trades: seq<L.Trade>, overspent: bool)
    requires config.Valid() && |opens| == shares.Length && reserve >= 0.0
    requires ValidNeeds(needs, |opens|) && ValidPrices(opens, config)
    requires Booked(initial, cash0, shares[..], trades0, config)
    modifies shares
    ensures !overspent
    ensures Positive(opens)
            && Book(cash, shares[..], trades)
               == BoughtUp(Book(cash0, old(shares[..]), trades0), needs, opens, reserve, config, |needs|)
    ensures Booked(initial, cash, shares[..], trades, config)
    ensures trades0 <= trades
    ensures forall i :: |trades0| <= i < |trades| ==> trades[i].action.BUY? && trades[i].cashAfter >= reserve
    ensures AllPriced(trades0, trades, opens, config)
  {
    hide B.Slip, B.ReferenceFees, B.TradeValue, B.BuyQuantity, L.CashReplay, Booked;
    cash, trades, overspent := cash0, trades0, false;
    var spendable := Max(0.0, cash - reserve);
    ghost var b := Book(cash0, shares[..], trades0);
    var i := 0;
    while i < |needs| && spendable > 0.0
      invariant 0 <= i <= |needs| && spendable == Max(0.0, cash - reserve)
      invariant Book(cash, shares[..], trades) == BoughtUp(b, needs, opens, reserve, config, i)
      invariant Booked(initial, cash, shares[..], trades, config)
      invariant trades0 <= trades
      invariant forall j :: |trades0| <= j < |trades| ==> trades[j].action.BUY? && trades[j].cashAfter >= reserve
      invariant AllPriced(trades0, trades, opens, config)
    {
      ghost var c := Book(cash, shares[..], trades);
      var k := needs[i].asset;
      var budget := Min(needs[i].amount, spendable);
      var quantity, price, fees := B.ExecuteBuy(budget, opens[k], config);
      if quantity > 0.0 {
        var gross := B.TradeValue(quantity, price);
        var cost := gross + fees.Total();
        if cost > spendable + OVERSPEND_TOLERANCE || cost > cash + OVERSPEND_TOLERANCE {
          overspent := true;
          return;
        }
        var t := L.Trade(L.BUY, k, price, quantity, gross, fees.Total(), 0.0, cash - cost);
        HoldingIsValid(initial, cash, shares[..], trades, config, k);
        WholeSum(shares[k], quantity, config);
        BookTrade(initial, cash, shares[..], trades, config, t, shares[k] + quantity);
        ghost var before := shares[..];
        shares[k] := shares[k] + quantity;
        assert shares[..] == before[k := before[k] + quantity];
        cash, trades := t.cashAfter, trades + [t];
        spendable := Max(0.0, cash - reserve);
      }
      assert Book(cash, shares[..], trades) == BoughtOne(c, needs[i], opens, reserve, config);
      i := i + 1;
    }
    NothingLeft(b, needs, opens, reserve, config, i, |needs|);
  }

  lemma WholeSum(held: real, quantity: real, config: B.Config)
    requires config.fractionalShares || (IsWhole(held) && IsWhole(quantity))
    ensures config.fractionalShares || IsWhole(held + quantity)
  {
    if !config.fractionalShares {
      var x, y := held.Floor, quantity.Floor;
      assert held + quantity == (x + y) as real;
      assert ((x + y) as real).Floor == x + y;
    }
  }

  // ---------------------------------------------------------------- a session and a whole run

  function Reserve(equity: real, cashWeight: real): real { Max(0.0, equity * cashWeight) }

  lemma ReserveFacts(equity: real, cashWeight: real)
    ensures Reserve(equity, cashWeight) >= 0.0 && Reserve(equity, cashWeight) >= Times(equity, cashWeight)
  {
  }

  function TargetValues(equity: real, weights: seq<real>): (values: seq<real>)
    ensures |values| == |weights|
    ensures forall k :: 0 <= k < |weights| ==> values[k] == Times(equity, Max(0.0, weights[k]))
  {
    if weights == [] then [] else [Times(equity, Max(0.0, weights[0]))] + TargetValues(equity, weights[1..])
  }

  /** The book after one session with equity: everything sold down, then the needs bought up. */
  function Rebalanced(b: Book, opens: seq<real>, allocation: Allocation, config: B.Config): (after: Book)
    requires config.Valid() && |opens| == |allocation.weights| == |b.shares| && Positive(opens)
    ensures |after.shares| == |b.shares|
  {
    hide SoldDown, BoughtUp, Threshold, NeedsOf;
    var equity := Equity(b.cash, b.shares, opens);
    ThresholdIsPositive(equity);
    var targets := TargetValues(equity, allocation.weights);
    var sold := SoldDown(b, opens, targets, Threshold(equity), config, |opens|);
    var needs := NeedsOf(sold.shares, opens, targets, Threshold(equity), |opens|);
    BoughtUp(sold, needs, opens, Reserve(equity, allocation.cashWeight), config, |needs|)
  }

  lemma ThresholdIsPositive(equity: real)
    ensures Threshold(equity) > 0.0
  {
  }

  /** One session: sell down to the targets, then buy up to them. */
  method Session(initial: real, cash0: real, shares: array<real>, trades0: seq<L.Trade>, opens: seq<real>,
                 allocation: Allocation, config: B.Config)
    returns (r: Result<(real, seq<L.Trade>), Error>)
    requires config.Valid() && |opens| == |allocation.weights| == shares.Length && ValidPrices(opens, config)
    requires Booked(initial, cash0, shares[..], trades0, config)
    modifies shares
    ensures r.Err? <==> Equity(cash0, old(shares[..]), opens) <= 0.0
    ensures r.Err? ==> r.error == InvalidEquity
    ensures Positive(opens)
    ensures r.Ok? ==>
              Book(r.value.0, shares[..], r.value.1)
              == Rebalanced(Book(cash0, old(shares[..]), trades0), opens, allocation, config)
    ensures r.Ok? ==> Booked(initial, r.value.0, shares[..], r.value.1, config)
    ensures r.Ok? ==>
              BuysLeave(trades0, r.value.1, Times(AccountValue(cash0, old(shares[..]), opens), allocation.cashWeight))
    ensures r.Ok? ==> AllPriced(trades0, r.value.1, opens, config)
  {
    assert Positive(opens);
    hide Equity, Booked, ValidPrices, Reserve, SoldDown, BoughtUp, NeedsOf, Threshold, AllPriced, BuysLeave;
    hide AccountValue, Times;
    EquityIsValue(cash0, shares[..], opens);
    var equity := Equity(cash0, shares[..], opens);
    if equity <= 0.0 {
      return Err(InvalidEquity);
    }
    var targets := TargetValues(equity, allocation.weights);
    var threshold := Threshold(equity);
    ThresholdIsPositive(equity);
    var cash, trades := SellDown(initial, cash0, shares, trades0, opens, targets, threshold, config);
    var needs := BuyNeeds(shares, opens, targets, threshold);
    var reserve := Reserve(equity, allocation.cashWeight);
    ReserveFacts(equity, allocation.cashWeight);
    var bought, all, overspent := BuyUp(initial, cash, shares, trades, opens, needs, reserve, config);
    if overspent {
      return Err(SizingExceededCash);
    }
    SessionLeaves(trades0, trades, all, reserve, Times(equity, allocation.cashWeight));
    PricedTogether(trades0, trades, all, opens, config);
    return Ok((bought, all));
  }

  /** The first n assets sold off at their closes. */
  function SoldOff(b: Book, closes: seq<real>, config: B.Config, n: nat): (after: Book)
    requires |closes| == |b.shares| && n <= |closes|
    ensures |after.shares| == |b.shares|
  {
    if n == 0 then b
    else
      var c := SoldOff(b, closes, config, n - 1);
      if c.shares[n - 1] <= 0.0 then c
      else Recorded(c, Sale(L.FINAL_SELL, n - 1, c.shares[n - 1], closes[n - 1], c.cash, config), 0.0)
  }

  /** The bookkeeping sale of everything still held. */
  method Liquidate(initial: real, cash0: real, shares: array<real>, trades0: seq<L.Trade>, closes: seq<real>,
                   config: B.Config)
    returns (cash: real, trades: seq<L.Trade>)
    requires |closes| == shares.Length
    requires Booked(initial, cash0, shares[..], trades0, config)
    modifies shares
    ensures Book(cash, shares[..], trades)
            == SoldOff(Book(cash0, old(shares[..]), trades0), closes, config, shares.Length)
    ensures Booked(initial, cash, shares[..], trades, config) && trades0 <= trades
    ensures forall k :: 0 <= k < shares.Length ==> shares[k] == 0.0
    ensures forall i :: |trades0| <= i < |trades| ==> trades[i].action.FINAL_SELL?
    ensures AllPriced(trades0, trades, closes, config)
  {
    hide B.Slip, B.ReferenceFees, B.TradeValue, L.CashReplay, Booked;
    cash, trades := cash0, trades0;
    ghost var b := Book(cash0, shares[..], trades0);
    var k := 0;
    while k < shares.Length
      invariant 0 <= k <= shares.Length
      invariant Book(cash, shares[..], trades) == SoldOff(b, closes, config, k)
      invariant Booked(initial, cash, shares[..], trades, config) && trades0 <= trades
      invariant forall j :: 0 <= j < k ==> shares[j] == 0.0
      invariant forall i :: |trades0| <= i < |trades| ==> trades[i].action.FINAL_SELL?
      invariant AllPriced(trades0, trades, closes, config)
    {
      var quantity := shares[k];
      HoldingIsValid(initial, cash, shares[..], trades, config, k);
      if quantity > 0.0 {
        var price := B.Slip(closes[k], B.Sell, config);
        var fee := B.ReferenceFees(B.Sell, quantity, price, config).Total();
        var gross := B.TradeValue(quantity, price);
        var t := L.Trade(L.FINAL_SELL, k, price, quantity, gross, fee, 0.0, cash + (gross - fee));
        BookTrade(initial, cash, shares[..], trades, config, t, 0.0);
        ghost var before := shares[..];
        shares[k] := 0.0;
        assert shares[..] == before[k := 0.0];
        cash, trades := t.cashAfter, trades + [t];
      }
      k := k + 1;
    }
  }

  lemma EmptyBook(initial: real, shares: seq<real>, config: B.Config)
    requires forall k :: 0 <= k < |shares| ==> shares[k] == 0.0
    ensures Booked(initial, initial, shares, [], config)
  {
  }

  /** The book after n sessions, unless the account ran out of equity. */
  function BookAfter(b: Book, allocations: seq<Allocation>, opens: seq<seq<real>>, config: B.Config,
                     n: nat): (after: Option<Book>)
    requires config.Valid() && n <= |allocations| < |opens|
    requires forall d :: 0 <= d < |opens| ==> |opens[d]| == |b.shares| && Positive(opens[d])
    requires forall d :: 0 <= d < |allocations| ==> |allocations[d].weights| == |b.shares|
    ensures after.Some? ==> |after.value.shares| == |b.shares|
  {
    hide Equity, Rebalanced;
    if n == 0 then Some(b)
    else
      var before := BookAfter(b, allocations, opens, config, n - 1);
      if before.None? || Equity(before.value.cash, before.value.shares, opens[n]) <= 0.0 then None
      else Some(Rebalanced(before.value, opens[n], allocations[n - 1], config))
  }

  /** Session d rebalanced to its allocation at the opens of session d + 1, where every trade was priced, and
      every purchase left the cash weight's part of the cash plus the holdings at those opens. */
  ghost predicate ReserveKept(b: Book, allocations: seq<Allocation>, opens: seq<seq<real>>, config: B.Config, d: nat)
    requires config.Valid() && d < |allocations| < |opens|
    requires forall k :: 0 <= k < |opens| ==> |opens[k]| == |b.shares| && Positive(opens[k])
    requires forall k :: 0 <= k < |allocations| ==> |allocations[k].weights| == |b.shares|
  {
    var before, after := BookAfter(b, allocations, opens, config, d), BookAfter(b, allocations, opens, config, d + 1);
    before.Some? && after.Some? ==>
      && after.value == Rebalanced(before.value, opens[d + 1], allocations[d], config)
      && AllPriced(before.value.trades, after.value.trades, opens[d + 1], config)
      && BuysLeave(before.value.trades, after.value.trades,
                   Times(AccountValue(before.value.cash, before.value.shares, opens[d + 1]), allocations[d].cashWeight))
  }

  /** A trade at the slipped price of its asset, with the fees of its side. */
  ghost predicate Priced(t: L.Trade, prices: seq<real>, config: B.Config) {
    var side := if t.action.BUY? then B.Buy else B.Sell;
    && t.asset < |prices| && t.price == B.Slip(prices[t.asset], side, config)
    && t.gross == B.TradeValue(t.quantity, t.price)
    && t.fee == B.ReferenceFees(side, t.quantity, t.price, config).Total()
  }

  ghost predicate AllPriced(known: seq<L.Trade>, all: seq<L.Trade>, prices: seq<real>, config: B.Config) {
    known <= all && forall i :: |known| <= i < |all| ==> Priced(all[i], prices, config)
  }

  /** The purchases among the new trades left at least the reserve. */
  ghost predicate BuysLeave(known: seq<L.Trade>, all: seq<L.Trade>, reserve: real) {
    known <= all && forall i :: |known| <= i < |all| && all[i].action.BUY? ==> all[i].cashAfter >= reserve
  }

  lemma PricedTogether(known: seq<L.Trade>, some: seq<L.Trade>, all: seq<L.Trade>, prices: seq<real>, config: B.Config)
    requires AllPriced(known, some, prices, config) && AllPriced(some, all, prices, config)
    ensures AllPriced(known, all, prices, config)
  {
    hide Priced;
  }

  /** Sales that leave the cash alone and purchases that leave the reserve. */
  lemma SessionLeaves(known: seq<L.Trade>, sold: seq<L.Trade>, all: seq<L.Trade>, reserve: real, part: real)
    requires known <= sold <= all && part <= reserve
    requires forall i :: |known| <= i < |sold| ==> sold[i].action.SELL?
    requires forall i :: |sold| <= i < |all| ==> all[i].action.BUY? && all[i].cashAfter >= reserve
    ensures BuysLeave(known, all, part)
  {
  }

  lemma PricesArePositive(opens: seq<seq<real>>, config: B.Config)
    requires forall d :: 0 <= d < |opens| ==> ValidPrices(opens[d], config)
    ensures forall d :: 0 <= d < |opens| ==> Positive(opens[d])
  {
    hide B.Slip;
  }

  /** The sessions of a run: decide at session d, rebalance at the open of session d + 1. */
  method Sessions(initial: real, shares: array<real>, allocations: seq<Allocation>, opens: seq<seq<real>>,
                  config: B.Config)
    returns (r: Result<(real, seq<L.Trade>), Error>)
    requires config.Valid() && |opens| == |allocations| + 1
    requires forall d :: 0 <= d < |opens| ==>
              |opens[d]| == shares.Length && ValidPrices(opens[d], config) && Positive(opens[d])
    requires forall d :: 0 <= d < |allocations| ==> |allocations[d].weights| == shares.Length
    requires Booked(initial, initial, shares[..], [], config)
    modifies shares
    ensures r.Ok? ==> Booked(initial, r.value.0, shares[..], r.value.1, config)
    ensures BookAfter(Book(initial, old(shares[..]), []), allocations, opens, config, |allocations|)
            == if r.Ok? then Some(Book(r.value.0, shares[..], r.value.1)) else None
    ensures forall d :: 0 <= d < |allocations| ==>
              ReserveKept(Book(initial, old(shares[..]), []), allocations, opens, config, d)
    ensures r.Err? ==> r.error == InvalidEquity
  {
    hide Booked, Equity, ValidPrices, Positive, Rebalanced, BuysLeave, AllPriced, AccountValue, Times;
    ghost var b := Book(initial, shares[..], []);
    var cash, trades := initial, [];
    var idx := 0;
    while idx < |allocations|
      invariant 0 <= idx <= |allocations|
      invariant Booked(initial, cash, shares[..], trades, config)
      invariant BookAfter(b, allocations, opens, config, idx) == Some(Book(cash, shares[..], trades))
      invariant forall d :: 0 <= d < idx ==> ReserveKept(b, allocations, opens, config, d)
    {
      ghost var before := Book(cash, shares[..], trades);
      var day := Session(initial, cash, shares, trades, opens[idx + 1], allocations[idx], config);
      if day.Err? {
        NoneStaysNone(b, allocations, opens, config, idx + 1, |allocations|);
        NoneKeepsReserve(b, allocations, opens, config, idx);
        return Err(day.error);
      }
      cash, trades := day.value.0, day.value.1;
      idx := idx + 1;
    }
    return Ok((cash, trades));
  }

  /** _simulate_optimized_allocation, with the policy's answers given as a sequence: the cash is the
      one the log implies, all shares are sold, and the only failure is an account without equity. */
  method Simulate(initial: real, assets: nat, allocations: seq<Allocation>, opens: seq<seq<real>>, closes: seq<real>,
                  config: B.Config)
    returns (r: Result<(real, seq<L.Trade>), Error>)
    requires config.Valid() && |closes| == assets && |opens| == |allocations| + 1
    requires forall d :: 0 <= d < |opens| ==> |opens[d]| == assets && ValidPrices(opens[d], config)
    requires forall d :: 0 <= d < |allocations| ==> |allocations[d].weights| == assets
    ensures |opens| < 2 <==> r == Err(IntervalTooShort)
    ensures r != Err(SizingExceededCash)
    ensures forall d :: 0 <= d < |opens| ==> Positive(opens[d])
    ensures var last := BookAfter(Book(initial, Constant(assets, 0.0), []), allocations, opens, config, |allocations|);
            && (|opens| >= 2 ==> (r.Err? <==> last.None?))
            && (r.Ok? ==>
                  && last.Some?
                  && var end := SoldOff(last.value, closes, config, assets);
                     r.value == (end.cash, end.trades)
                     && AllPriced(last.value.trades, end.trades, closes, config))
    ensures forall d :: 0 <= d < |allocations| ==>
              ReserveKept(Book(initial, Constant(assets, 0.0), []), allocations, opens, config, d)
    ensures r.Ok? ==> r.value.0 == L.CashReplay(initial, r.value.1)
    ensures r.Ok? ==> forall k :: 0 <= k < assets ==> NetQuantity(r.value.1, k) == 0.0
  {
    PricesArePositive(opens, config);
    if |opens| < 2 {
      return Err(IntervalTooShort);
    }
    hide Booked, NetQuantity, ValidPrices, Positive, BookAfter, SoldOff;
    var shares := new real[assets](_ => 0.0);
    EmptyBook(initial, shares[..], config);
    assert shares[..] == Constant(assets, 0.0);
    var run := Sessions(initial, shares, allocations, opens, config);
    if run.Err? {
      return run;
    }
    var cash, trades := Liquidate(initial, run.value.0, shares, run.value.1, closes, config);
    BookedMeans(initial, cash, shares[..], trades, config);
    return Ok((cash, trades));
  }

  lemma {:induction false} NoneStaysNone(b: Book, allocations: seq<Allocation>, opens: seq<seq<real>>,
                                         config: B.Config, n: nat, m: nat)
    requires config.Valid() && n <= m <= |allocations| < |opens|
    requires forall d :: 0 <= d < |opens| ==> |opens[d]| == |b.shares| && Positive(opens[d])
    requires forall d :: 0 <= d < |allocations| ==> |allocations[d].weights| == |b.shares|
    requires BookAfter(b, allocations, opens, config, n).None?
    ensures BookAfter(b, allocations, opens, config, m).None?
    decreases m
  {
    hide Equity, Rebalanced, Positive;
    if n < m {
      NoneStaysNone(b, allocations, opens, config, n, m - 1);
    }
  }

  /** After an account ran out of equity there is nothing left to keep. */
  lemma NoneKeepsReserve(b: Book, allocations: seq<Allocation>, opens: seq<seq<real>>, config: B.Config, n: nat)
    requires config.Valid() && n < |allocations| < |opens|
    requires forall d :: 0 <= d < |opens| ==> |opens[d]| == |b.shares| && Positive(opens[d])
    requires forall d :: 0 <= d < |allocations| ==> |allocations[d].weights| == |b.shares|
    requires BookAfter(b, allocations, opens, config, n + 1).None?
    ensures forall d :: n <= d < |allocations| ==> ReserveKept(b, allocations, opens, config, d)
  {
    hide Equity, Rebalanced, Positive;
    forall d | n <= d < |allocations|
      ensures ReserveKept(b, allocations, opens, config, d)
    {
      NoneStaysNone(b, allocations, opens, config, n + 1, d + 1);
    }
  }

  lemma BookedMeans(initial: real, cash: real, shares: seq<real>, trades: seq<L.Trade>, config: B.Config)
    requires Booked(initial, cash, shares, trades, config)
    ensures cash == L.CashReplay(initial, trades)
    ensures forall k :: 0 <= k < |shares| ==> shares[k] == NetQuantity(trades, k)
  {
  }
}
