/**
 The single-position simulation of engine/capital_rotation.py (_simulate_exact): cash, position,
 quantity and trade log, advanced one session at a time by any policy.

 The trade log is judged by two independent readings of it: an automaton that accepts only strictly
 alternating BUY and SELL legs of the same asset and quantity (Replay), and the cash that the logged
 amounts imply (CashReplay). Main results: every run produces an accepted log whose implied cash is
 the simulator's cash, executes every change of position at the opens of the session after its decision
 and nothing else, and marks every row at its session's closes (Simulate, Executed); and for every accepted
 log the cash is the initial capital plus realised profit less BUY fees (LedgerIdentity).
 */
module Ledger {
  import opened Common
  import B = BuySizing

  datatype Action = BUY | SELL | FINAL_SELL

  datatype Trade = Trade(action: Action, asset: nat, price: real, quantity: real, gross: real, fee: real,
                         realized: real, cashAfter: real)

  // ---------------------------------------------------------------- readings of a trade log

  datatype Leg = Flat | Holding(asset: nat, quantity: real, price: real) | Closed | Broken

  function StepLeg(leg: Leg, t: Trade): Leg {
    if t.gross != B.TradeValue(t.quantity, t.price) then Broken
    else match leg
      case Flat =>
        if t.action.BUY? && t.asset > 0 && t.realized == 0.0 then Holding(t.asset, t.quantity, t.price) else Broken
      case Holding(asset, quantity, price) =>
        if t.action.BUY? || t.asset != asset || t.quantity != quantity
           || t.realized != B.TradeValue(quantity, t.price - price) - t.fee then Broken
        else if t.action.SELL? then Flat else Closed
      case Closed => Broken
      case Broken => Broken
  }

  /** The open leg after a log; Broken when the log is not a sequence of matched legs. */
  function Replay(trades: seq<Trade>): Leg {
    if trades == [] then Flat
    else StepLeg(Replay(trades[..|trades| - 1]), trades[|trades| - 1])
  }

  function CashFlow(t: Trade): real {
    if t.action.BUY? then -(t.gross + t.fee) else t.gross - t.fee
  }

  function CashReplay(initial: real, trades: seq<Trade>): real {
    if trades == [] then initial
    else CashReplay(initial, trades[..|trades| - 1]) + CashFlow(trades[|trades| - 1])
  }

  function SumBy(trades: seq<Trade>, f: Trade -> real): real {
    if trades == [] then 0.0
    else SumBy(trades[..|trades| - 1], f) + f(trades[|trades| - 1])
  }

  const REALIZED: Trade -> real := (t: Trade) => t.realized
  const FEE: Trade -> real := (t: Trade) => t.fee
  const BUY_FEE: Trade -> real := (t: Trade) => if t.action.BUY? then t.fee else 0.0
  const GROSS: Trade -> real := (t: Trade) => t.gross

  /** Every row carries the cash implied by the log, and no BUY turns available cash negative. */
  ghost predicate WellLogged(initial: real, trades: seq<Trade>) {
    trades != [] ==>
      var before, last := trades[..|trades| - 1], trades[|trades| - 1];
      && WellLogged(initial, before)
      && last.cashAfter == CashReplay(initial, trades)
      && (last.action.BUY? && last.price <= B.MAX_PRICE && CashReplay(initial, before) >= 0.0 ==>
            last.cashAfter >= 0.0)
  }

  function OpenCost(leg: Leg): real {
    if leg.Holding? then B.TradeValue(leg.quantity, leg.price) else 0.0
  }

  lemma SplitValue(quantity: real, price: real, entry: real)
    ensures B.TradeValue(quantity, price - entry) == B.TradeValue(quantity, price) - B.TradeValue(quantity, entry)
  {
  }

  /** Conservation: for every accepted log, cash plus the cost of the open leg is the initial capital
      plus realised profit less BUY fees. */
  lemma {:induction false} LedgerIdentity(initial: real, trades: seq<Trade>)
    requires !Replay(trades).Broken?
    ensures CashReplay(initial, trades) + OpenCost(Replay(trades))
            == initial + SumBy(trades, REALIZED) - SumBy(trades, BUY_FEE)
  {
    hide B.TradeValue;
    if trades != [] {
      var before, last := trades[..|trades| - 1], trades[|trades| - 1];
      LedgerIdentity(initial, before);
      var leg := Replay(before);
      if leg.Holding? {
        SplitValue(leg.quantity, last.price, leg.price);
      }
    }
  }

  /** An accepted log alternates: BUY at every even index, a SELL of the same asset and quantity
      right after it, and only the very last trade can be the final liquidation. */
  lemma {:induction false} AcceptedLogAlternates(trades: seq<Trade>)
    requires !Replay(trades).Broken?
    ensures |trades| % 2 == 1 <==> Replay(trades).Holding?
    ensures Replay(trades).Closed? ==> trades != [] && trades[|trades| - 1].action.FINAL_SELL?
    ensures Replay(trades).Holding? ==>
              var last := trades[|trades| - 1];
              Replay(trades) == Holding(last.asset, last.quantity, last.price)
    ensures forall i :: 0 <= i < |trades| ==> (trades[i].action.BUY? <==> i % 2 == 0)
    ensures forall i :: 0 < i < |trades| && i % 2 == 1 ==>
              trades[i].asset == trades[i - 1].asset && trades[i].quantity == trades[i - 1].quantity
    ensures forall i :: 0 <= i < |trades| && trades[i].action.FINAL_SELL? ==> i == |trades| - 1
  {
    hide B.TradeValue;
    if trades != [] {
      var before := trades[..|trades| - 1];
      AcceptedLogAlternates(before);
      assert forall i :: 0 <= i < |before| ==> before[i] == trades[i];
    }
  }

  // ---------------------------------------------------------------- the simulator

  datatype Row = Row(position: nat, holding: nat, equity: real)

  function Rotations(rows: seq<Row>): nat {
    if |rows| < 2 then 0
    else
      var from, to := rows[|rows| - 2].position, rows[|rows| - 1].position;
      Rotations(rows[..|rows| - 1]) + (if from > 0 && to > 0 && from != to then 1 else 0)
  }

  /** Sessions held: counted from one at every entry, zero in cash. */
  function NextHolding(position: nat, holding: nat, target: nat): nat {
    if target == 0 then 0 else if target == position then holding + 1 else 1
  }

  /** Every row is the policy's answer to the row before it (cash before the first). */
  ghost predicate FollowsPolicy(rows: seq<Row>, policy: (nat, nat, nat) -> nat) {
    forall i {:trigger Before(rows, i)} :: 0 <= i < |rows| ==> Follows(i, Before(rows, i), rows[i], policy)
  }

  function Before(rows: seq<Row>, i: nat): Row
    requires i <= |rows|
  {
    if i == 0 then CASH_ROW else rows[i - 1]
  }

  const CASH_ROW: Row := Row(0, 0, 0.0)

  predicate Follows(i: nat, before: Row, row: Row, policy: (nat, nat, nat) -> nat) {
    && row.position == policy(i, before.position, before.holding)
    && row.holding == NextHolding(before.position, before.holding, row.position)
  }

  datatype Outcome =
    Outcome(trades: seq<Trade>, rows: seq<Row>, cash: real, totalFees: real, turnover: real, rotations: nat)

  datatype Error = IntervalTooShort

  /** What the loop keeps, and, once the position is closed, what the caller gets. */
  ghost predicate Accounted(initial: real, o: Outcome) {
    AccountedTrades(initial, o) && AccountedRows(o)
  }

  ghost predicate AccountedTrades(initial: real, o: Outcome) {
    && !Replay(o.trades).Broken?
    && WellLogged(initial, o.trades)
    && o.cash == CashReplay(initial, o.trades)
    && o.totalFees == SumBy(o.trades, FEE)
    && o.turnover == SumBy(o.trades, GROSS)
  }

  predicate AccountedRows(o: Outcome) {
    && o.rotations == Rotations(o.rows)
    && forall i :: 0 <= i < |o.rows| ==> (o.rows[i].holding > 0 <==> o.rows[i].position > 0)
  }

  /** Logging one trade keeps the totals in step with the log. */
  lemma LogTrade(initial: real, trades: seq<Trade>, t: Trade)
    requires WellLogged(initial, trades) && t.cashAfter == CashReplay(initial, trades) + CashFlow(t)
    requires t.action.BUY? && t.price <= B.MAX_PRICE && CashReplay(initial, trades) >= 0.0 ==> t.cashAfter >= 0.0
    ensures Replay(trades + [t]) == StepLeg(Replay(trades), t)
    ensures CashReplay(initial, trades + [t]) == t.cashAfter
    ensures WellLogged(initial, trades + [t])
    ensures SumBy(trades + [t], FEE) == SumBy(trades, FEE) + t.fee
    ensures SumBy(trades + [t], GROSS) == SumBy(trades, GROSS) + t.gross
  {
    assert (trades + [t])[..|trades|] == trades;
  }

  predicate WellFormedBars(bars: seq<seq<real>>, assets: nat) {
    forall d :: 0 <= d < |bars| ==> |bars[d]| == assets && forall k :: 0 <= k < assets ==> bars[d][k] > 0.0
  }

  /** The sale of a position at a raw price. */
  function SellLeg(action: Action, asset: nat, quantity: real, entryPrice: real, rawPrice: real, cash: real,
                   config: B.Config): Trade {
    var price := B.Slip(rawPrice, B.Sell, config);
    var fee := B.ReferenceFees(B.Sell, quantity, price, config).Total();
    var gross := B.TradeValue(quantity, price);
    Trade(action, asset, price, quantity, gross, fee, B.TradeValue(quantity, price - entryPrice) - fee,
          cash + (gross - fee))
  }

  /** The purchase of an asset at a raw price with all the cash. */
  function BuyLeg(asset: nat, rawPrice: real, cash: real, config: B.Config): Trade
    requires config.Valid() && rawPrice > 0.0
  {
    B.SlipPositive(rawPrice, config);
    var price := B.Slip(rawPrice, B.Buy, config);
    var quantity := B.BuyQuantity(cash, price, config);
    var fee := B.ReferenceFees(B.Buy, quantity, price, config).Total();
    var gross := B.TradeValue(quantity, price);
    Trade(BUY, asset, price, quantity, gross, fee, 0.0, cash - (gross + fee))
  }

  /** Buying with all the cash and selling again at the same raw price loses both fees at least:
      slippage is never in the trader's favour. */
  lemma RoundTripNeverGains(asset: nat, rawPrice: real, cash: real, config: B.Config)
    requires config.Valid() && rawPrice > 0.0
    ensures var bought := BuyLeg(asset, rawPrice, cash, config);
            var sold := SellLeg(SELL, asset, bought.quantity, bought.price, rawPrice, bought.cashAfter, config);
            && sold.realized <= -sold.fee <= 0.0
            && sold.cashAfter == cash + sold.realized - bought.fee <= cash - bought.fee - sold.fee <= cash
  {
    hide B.ReferenceFees, B.BuyQuantity, B.Slip, B.TradeValue;
    B.SlipPositive(rawPrice, config);
    B.SlipIsAdverse(rawPrice, config);
    var high, low := B.Slip(rawPrice, B.Buy, config), B.Slip(rawPrice, B.Sell, config);
    var quantity := B.BuyQuantity(cash, high, config);
    B.BuyQuantityNonNegative(cash, high, config);
    B.FeesNonNegative(B.Buy, quantity, high, config);
    B.FeesNonNegative(B.Sell, quantity, low, config);
    SplitValue(quantity, low, high);
    LossOnFall(quantity, low - high);
  }

  lemma LossOnFall(quantity: real, change: real)
    requires quantity >= 0.0 && change <= 0.0
    ensures B.TradeValue(quantity, change) <= 0.0
  {
  }

  method Close(action: Action, asset: nat, quantity: real, entryPrice: real, rawPrice: real, cash: real,
               config: B.Config)
    returns (t: Trade)
    requires !action.BUY?
    ensures t == SellLeg(action, asset, quantity, entryPrice, rawPrice, cash, config) && t.action == action
    ensures t.cashAfter == cash + CashFlow(t)
    ensures StepLeg(Holding(asset, quantity, entryPrice), t) == if action.SELL? then Flat else Closed
  {
    hide B.TradeValue;
    hide B.ReferenceFees;
    hide B.Slip;
    var price := B.Slip(rawPrice, B.Sell, config);
    var fee := B.ReferenceFees(B.Sell, quantity, price, config).Total();
    var gross := B.TradeValue(quantity, price);
    var realized := B.TradeValue(quantity, price - entryPrice) - fee;
    t := Trade(action, asset, price, quantity, gross, fee, realized, cash + (gross - fee));
  }

  method Open(asset: nat, rawPrice: real, cash: real, config: B.Config) returns (t: Trade)
    requires config.Valid() && rawPrice > 0.0 && asset > 0
    ensures t == BuyLeg(asset, rawPrice, cash, config)
    ensures t.quantity >= 0.0 && t.cashAfter == cash + CashFlow(t)
    ensures t.price <= B.MAX_PRICE && cash >= 0.0 ==> t.cashAfter >= 0.0
    ensures StepLeg(Flat, t) == Holding(asset, t.quantity, t.price)
  {
    hide B.TradeValue;
    hide B.ReferenceFees;
    hide B.Slip;
    hide B.BuyQuantity;
    var quantity, price, fees := B.ExecuteBuy(cash, rawPrice, config);
    var gross := B.TradeValue(quantity, price);
    t := Trade(BUY, asset, price, quantity, gross, fees.Total(), 0.0, cash - (gross + fees.Total()));
  }

  /** The loop variables: the outcome so far and the open position. */
  datatype State = State(o: Outcome, position: nat, quantity: real, entryPrice: real, holding: nat)

  ghost predicate Consistent(initial: real, s: State) {
    && AccountedTrades(initial, s.o)
    && Replay(s.o.trades) == (if s.position > 0 then Holding(s.position, s.quantity, s.entryPrice) else Flat)
    && (s.holding > 0 <==> s.position > 0)
  }

  function Log(o: Outcome, t: Trade): Outcome {
    o.(trades := o.trades + [t], cash := t.cashAfter,
       totalFees := o.totalFees + t.fee, turnover := o.turnover + t.gross)
  }

  /** The state after leaving the open position at the session's open. */
  function Left(s: State, opens: seq<real>, config: B.Config): State
    requires s.position <= |opens|
  {
    if s.position == 0 then s
    else
      var t := SellLeg(SELL, s.position, s.quantity, s.entryPrice, opens[s.position - 1], s.o.cash, config);
      State(Log(s.o, t), 0, 0.0, 0.0, 0)
  }

  /** The state after entering the target, if any, at the session's open. */
  function Entered(s: State, target: nat, opens: seq<real>, config: B.Config): State
    requires config.Valid() && target <= |opens| && forall k :: 0 <= k < |opens| ==> opens[k] > 0.0
  {
    if target == 0 then s
    else
      var t := BuyLeg(target, opens[target - 1], s.o.cash, config);
      State(Log(s.o, t), target, t.quantity, t.price, 1)
  }

  /** Leave the open position and enter the target at the session's open. */
  method Rotate(initial: real, s: State, target: nat, opens: seq<real>, config: B.Config) returns (n: State)
    requires config.Valid() && Consistent(initial, s)
    requires s.position <= |opens| && target <= |opens| && forall k :: 0 <= k < |opens| ==> opens[k] > 0.0
    requires target != s.position
    ensures n == Entered(Left(s, opens, config), target, opens, config)
    ensures Consistent(initial, n) && n.position == target && (target > 0 ==> n.holding == 1)
    ensures n.o.rows == s.o.rows && n.o.rotations == s.o.rotations
  {
    hide BuyLeg;
    hide SellLeg;
    hide StepLeg;
    hide WellLogged;
    hide SumBy;
    hide Replay;
    hide CashReplay;
    n := s;
    if n.position > 0 {
      var t := Close(SELL, n.position, n.quantity, n.entryPrice, opens[n.position - 1], n.o.cash, config);
      LogTrade(initial, n.o.trades, t);
      n := State(Log(n.o, t), 0, 0.0, 0.0, 0);
    }
    if target > 0 {
      var t := Open(target, opens[target - 1], n.o.cash, config);
      LogTrade(initial, n.o.trades, t);
      n := State(Log(n.o, t), target, t.quantity, t.price, 1);
    }
  }

  /** The outcome after the bookkeeping sale of an open position at its last close. */
  function Settled(s: State, closes: seq<real>, config: B.Config): Outcome
    requires s.position <= |closes|
  {
    if s.position == 0 || s.o.rows == [] then s.o
    else
      var t := SellLeg(FINAL_SELL, s.position, s.quantity, s.entryPrice, closes[s.position - 1], s.o.cash, config);
      var last := |s.o.rows| - 1;
      Log(s.o, t).(rows := s.o.rows[last := s.o.rows[last].(equity := t.cashAfter)])
  }

  /** The bookkeeping sale at the last close; the last row's equity becomes the cash. */
  method Liquidate(initial: real, s: State, closes: seq<real>, config: B.Config) returns (o: Outcome)
    requires Consistent(initial, s) && AccountedRows(s.o) && 0 < s.position <= |closes| && s.o.rows != []
    ensures o == Settled(s, closes, config)
    ensures Accounted(initial, o) && Replay(o.trades) == Closed
    ensures |o.rows| == |s.o.rows| && o.rows[|o.rows| - 1].equity == o.cash
    ensures forall i :: 0 <= i < |o.rows| ==>
              o.rows[i].position == s.o.rows[i].position && o.rows[i].holding == s.o.rows[i].holding
  {
    hide SellLeg;
    hide StepLeg;
    hide WellLogged;
    hide SumBy;
    hide Replay;
    hide CashReplay;
    hide Rotations;
    var t := Close(FINAL_SELL, s.position, s.quantity, s.entryPrice, closes[s.position - 1], s.o.cash, config);
    LogTrade(initial, s.o.trades, t);
    var last := |s.o.rows| - 1;
    var rows := s.o.rows[last := s.o.rows[last].(equity := t.cashAfter)];
    RotationsIgnoreEquity(s.o.rows, rows);
    o := Log(s.o, t).(rows := rows);
  }

  /** The state after the session's trades and its row. */
  function Advanced(s: State, target: nat, opens: seq<real>, closes: seq<real>, config: B.Config): (n: State)
    requires config.Valid() && s.position <= |opens| && target <= |opens| == |closes|
    requires forall k :: 0 <= k < |opens| ==> opens[k] > 0.0
    ensures n.position == target
  {
    var moved := if target == s.position then s.(holding := HeldOn(s))
                 else Entered(Left(s, opens, config), target, opens, config);
    var equity := if target > 0 then moved.o.cash + B.TradeValue(moved.quantity, closes[target - 1]) else moved.o.cash;
    var rotated := if s.position > 0 && target > 0 && target != s.position then 1 else 0;
    moved.(o := moved.o.(rows := moved.o.rows + [Row(target, moved.holding, equity)],
          rotations := s.o.rotations + rotated))
  }

  function HeldOn(s: State): nat { if s.position > 0 then s.holding + 1 else s.holding }

  /** The state after n sessions under a policy, starting in cash. */
  function StateAfter(initial: real, assets: nat, policy: (nat, nat, nat) -> nat, opens: seq<seq<real>>,
                      closes: seq<seq<real>>, config: B.Config, n: nat): (s: State)
    requires config.Valid() && n < |opens| == |closes| && WellFormedBars(opens, assets)
             && WellFormedBars(closes, assets)
    requires forall d, p, h :: policy(d, p, h) <= assets
    ensures s.position <= assets
  {
    if n == 0 then State(Outcome([], [], initial, 0.0, 0.0, 0), 0, 0.0, 0.0, 0)
    else
      var s := StateAfter(initial, assets, policy, opens, closes, config, n - 1);
      Advanced(s, policy(n - 1, s.position, s.holding), opens[n], closes[n], config)
  }

  /** One session: trade at the open, mark at the close, append the row. */
  method Advance(initial: real, s: State, target: nat, opens: seq<real>, closes: seq<real>,
                 config: B.Config) returns (n: State)
    requires config.Valid() && Consistent(initial, s) && AccountedRows(s.o)
    requires s.position <= |opens| && target <= |opens| == |closes| && forall k :: 0 <= k < |opens| ==> opens[k] > 0.0
    requires Before(s.o.rows, |s.o.rows|).position == s.position && Before(s.o.rows, |s.o.rows|).holding == s.holding
    ensures n == Advanced(s, target, opens, closes, config)
    ensures Consistent(initial, n) && AccountedRows(n.o)
    ensures var row := Before(n.o.rows, |n.o.rows|);
            && n.o.rows == s.o.rows + [row]
            && row.position == target == n.position
            && row.holding == NextHolding(s.position, s.holding, target) == n.holding
            && (target == 0 ==> row.equity == n.o.cash)
  {
    hide B.TradeValue;
    hide Left;
    hide Entered;
    hide StepLeg;
    hide WellLogged;
    hide SumBy;
    hide Replay;
    hide CashReplay;
    hide Rotations;
    n := s;
    var rotations := s.o.rotations;
    if target != s.position {
      n := Rotate(initial, s, target, opens, config);
      if s.position > 0 && target > 0 {
        rotations := rotations + 1;
      }
    } else if s.position > 0 {
      n := s.(holding := s.holding + 1);
    }
    var equity := if n.position > 0 then n.o.cash + B.TradeValue(n.quantity, closes[n.position - 1]) else n.o.cash;
    RotationsAppend(s.o.rows, Row(n.position, n.holding, equity));
    n := n.(o := n.o.(rows := n.o.rows + [Row(n.position, n.holding, equity)], rotations := rotations));
  }

  // ---------------------------------------------------------------- what a run executes, and at which prices

  /** What a trade is, at which execution price. */
  datatype Fill = Fill(action: Action, asset: nat, price: real)

  ghost function Fills(trades: seq<Trade>): (fills: seq<Fill>)
    ensures |fills| == |trades|
  {
    if trades == [] then []
    else
      var t := trades[|trades| - 1];
      Fills(trades[..|trades| - 1]) + [Fill(t.action, t.asset, t.price)]
  }

  /** A change of position: the old asset is sold and the new one bought, each at its slipped open. */
  ghost function ChangeOrders(from: nat, to: nat, opens: seq<real>, config: B.Config): seq<Fill>
    requires from <= |opens| && to <= |opens|
  {
    if from == to then []
    else
      (if from == 0 then [] else [Fill(SELL, from, B.Slip(opens[from - 1], B.Sell, config))])
      + (if to == 0 then [] else [Fill(BUY, to, B.Slip(opens[to - 1], B.Buy, config))])
  }

  ghost predicate Positioned(rows: seq<Row>, opens: seq<seq<real>>, closes: seq<seq<real>>, assets: nat) {
    && |rows| < |opens| == |closes| && WellFormedBars(opens, assets) && WellFormedBars(closes, assets)
    && forall i :: 0 <= i < |rows| ==> rows[i].position <= assets
  }

  /** The orders of the first n rows: row i trades at the opens of session i + 1, the one after its decision. */
  ghost function OrdersOf(rows: seq<Row>, opens: seq<seq<real>>, closes: seq<seq<real>>, assets: nat, config: B.Config,
                          n: nat): seq<Fill>
    requires Positioned(rows, opens, closes, assets) && n <= |rows|
  {
    if n == 0 then []
    else
      OrdersOf(rows, opens, closes, assets, config, n - 1)
      + ChangeOrders(Before(rows, n - 1).position, rows[n - 1].position, opens[n], config)
  }

  /** The bookkeeping sale of an open position at its slipped last close. */
  ghost function FinalOrder(position: nat, closes: seq<real>, config: B.Config): seq<Fill>
    requires position <= |closes|
  {
    if position == 0 then [] else [Fill(FINAL_SELL, position, B.Slip(closes[position - 1], B.Sell, config))]
  }

  /** Cash and the open leg of a log, the leg valued at the given prices. */
  ghost function ValueOf(initial: real, trades: seq<Trade>, position: nat, prices: seq<real>): real
    requires position <= |prices|
  {
    var leg := Replay(trades);
    CashReplay(initial, trades)
    + if position > 0 && leg.Holding? then B.TradeValue(leg.quantity, prices[position - 1]) else 0.0
  }

  /** Row i is the log up to its session, valued at that session's closes. */
  ghost predicate Marked(initial: real, trades: seq<Trade>, rows: seq<Row>, opens: seq<seq<real>>,
                         closes: seq<seq<real>>, assets: nat, config: B.Config, i: nat)
    requires Positioned(rows, opens, closes, assets) && i < |rows|
  {
    var count := |OrdersOf(rows, opens, closes, assets, config, i + 1)|;
    count <= |trades|
    && (Replay(trades[..count]).Holding? <==> rows[i].position > 0)
    && rows[i].equity == ValueOf(initial, trades[..count], rows[i].position, closes[i + 1])
  }

  /** A trade pays the fees of its side, and a purchase uses up the cash before it: of that at most the fee on
      all of it stays, and with whole shares less than one share's price more. */
  ghost predicate Fair(initial: real, before: seq<Trade>, t: Trade, config: B.Config) {
    && t.fee == B.ReferenceFees(if t.action.BUY? then B.Buy else B.Sell, t.quantity, t.price, config).Total()
    && (t.action.BUY? && 0.0 < t.price <= B.MAX_PRICE && CashReplay(initial, before) >= 0.0 ==>
          var cash := CashReplay(initial, before);
          cash - t.gross
          <= B.BuyFee(cash / t.price, t.price, config) + if config.fractionalShares then 0.0 else t.price)
  }

  ghost predicate AllFair(initial: real, trades: seq<Trade>, config: B.Config) {
    trades != [] ==>
      && AllFair(initial, trades[..|trades| - 1], config)
      && Fair(initial, trades[..|trades| - 1], trades[|trades| - 1], config)
  }

  /** The log holds exactly the orders of the rows, followed by the final sale once settled; every row is
      marked at its closes, except that a settled position ends as cash; every trade is fair. */
  ghost predicate Executed(initial: real, o: Outcome, opens: seq<seq<real>>, closes: seq<seq<real>>, assets: nat,
                           config: B.Config, settled: bool)
  {
    var n := |o.rows|;
    && Positioned(o.rows, opens, closes, assets)
    && Fills(o.trades) == OrdersOf(o.rows, opens, closes, assets, config, n)
                          + (if settled then FinalOrder(Before(o.rows, n).position, closes[n], config) else [])
    && (forall i :: 0 <= i < n && !(settled && i == n - 1 && o.rows[i].position > 0) ==>
          Marked(initial, o.trades, o.rows, opens, closes, assets, config, i))
    && AllFair(initial, o.trades, config)
  }

  lemma {:induction false} FillsPrefix(trades: seq<Trade>, n: nat)
    requires n <= |trades|
    ensures Fills(trades)[..n] == Fills(trades[..n])
  {
    if n < |trades| {
      FillsPrefix(trades[..|trades| - 1], n);
      assert trades[..|trades| - 1][..n] == trades[..n];
    } else {
      assert trades[..n] == trades;
    }
  }

  lemma FillsAppend(trades: seq<Trade>, t: Trade)
    ensures Fills(trades + [t]) == Fills(trades) + [Fill(t.action, t.asset, t.price)]
  {
    assert (trades + [t])[..|trades|] == trades;
  }

  lemma FairAppend(initial: real, trades: seq<Trade>, t: Trade, config: B.Config)
    requires AllFair(initial, trades, config) && Fair(initial, trades, t, config)
    ensures AllFair(initial, trades + [t], config)
  {
    hide Fair;
    assert (trades + [t])[..|trades|] == trades;
  }

  /** Orders look only at positions, and only at rows that are there already. */
  lemma {:induction false} OrdersAgree(a: seq<Row>, b: seq<Row>, opens: seq<seq<real>>, closes: seq<seq<real>>,
                                       assets: nat, config: B.Config, n: nat)
    requires Positioned(a, opens, closes, assets) && Positioned(b, opens, closes, assets) && n <= |a| && n <= |b|
    requires forall i :: 0 <= i < n ==> a[i].position == b[i].position
    ensures OrdersOf(a, opens, closes, assets, config, n) == OrdersOf(b, opens, closes, assets, config, n)
  {
    hide ChangeOrders, WellFormedBars;
    if n > 0 {
      OrdersAgree(a, b, opens, closes, assets, config, n - 1);
    }
  }

  lemma SellIsFair(initial: real, before: seq<Trade>, action: Action, asset: nat, quantity: real, entryPrice: real,
                   rawPrice: real, config: B.Config)
    requires !action.BUY?
    ensures Fair(initial, before, SellLeg(action, asset, quantity, entryPrice, rawPrice, CashReplay(initial, before),
                                          config), config)
  {
    hide B.ReferenceFees, B.TradeValue;
  }

  lemma BuyIsFair(initial: real, before: seq<Trade>, asset: nat, rawPrice: real, config: B.Config)
    requires config.Valid() && rawPrice > 0.0
    ensures Fair(initial, before, BuyLeg(asset, rawPrice, CashReplay(initial, before), config), config)
  {
    hide B.ReferenceFees, B.TradeValue, B.Slip, B.Order.Size, B.StepFee, CashReplay;
    B.SlipPositive(rawPrice, config);
    B.BuyOrderAffordable(CashReplay(initial, before), B.Slip(rawPrice, B.Buy, config), config);
  }

  lemma LeftFills(initial: real, s: State, opens: seq<real>, config: B.Config)
    requires s.o.cash == CashReplay(initial, s.o.trades) && AllFair(initial, s.o.trades, config)
    requires 0 < s.position <= |opens|
    ensures var n := Left(s, opens, config);
            && n.position == 0 && n.o.cash == CashReplay(initial, n.o.trades) && AllFair(initial, n.o.trades, config)
            && Fills(n.o.trades)
               == Fills(s.o.trades) + [Fill(SELL, s.position, B.Slip(opens[s.position - 1], B.Sell, config))]
            && s.o.trades <= n.o.trades && n.o.rows == s.o.rows
  {
    hide B.Slip, B.TradeValue, B.ReferenceFees, AllFair, Fair, CashReplay, Fills;
    var t := SellLeg(SELL, s.position, s.quantity, s.entryPrice, opens[s.position - 1], s.o.cash, config);
    SellIsFair(initial, s.o.trades, SELL, s.position, s.quantity, s.entryPrice, opens[s.position - 1], config);
    FillsAppend(s.o.trades, t);
    FairAppend(initial, s.o.trades, t, config);
    CashAfterSale(initial, s.o.trades, t);
  }

  lemma EnteredFills(initial: real, s: State, target: nat, opens: seq<real>, config: B.Config)
    requires config.Valid() && s.o.cash == CashReplay(initial, s.o.trades) && AllFair(initial, s.o.trades, config)
    requires 0 < target <= |opens| && forall k :: 0 <= k < |opens| ==> opens[k] > 0.0
    ensures var n := Entered(s, target, opens, config);
            && AllFair(initial, n.o.trades, config)
            && Fills(n.o.trades) == Fills(s.o.trades) + [Fill(BUY, target, B.Slip(opens[target - 1], B.Buy, config))]
            && s.o.trades <= n.o.trades && n.o.rows == s.o.rows
  {
    hide B.Slip, B.TradeValue, B.ReferenceFees, B.BuyQuantity, AllFair, Fair, CashReplay, Fills;
    var t := BuyLeg(target, opens[target - 1], s.o.cash, config);
    BuyIsFair(initial, s.o.trades, target, opens[target - 1], config);
    FillsAppend(s.o.trades, t);
    FairAppend(initial, s.o.trades, t, config);
  }

  /** The trades of one session are its orders, all of them fair. */
  lemma MovedFills(initial: real, s: State, target: nat, opens: seq<real>, config: B.Config)
    requires config.Valid() && s.o.cash == CashReplay(initial, s.o.trades) && AllFair(initial, s.o.trades, config)
    requires s.position <= |opens| && target <= |opens| && forall k :: 0 <= k < |opens| ==> opens[k] > 0.0
    requires target != s.position
    ensures var n := Entered(Left(s, opens, config), target, opens, config);
            && Fills(n.o.trades) == Fills(s.o.trades) + ChangeOrders(s.position, target, opens, config)
            && AllFair(initial, n.o.trades, config)
            && s.o.trades <= n.o.trades && n.o.rows == s.o.rows
  {
    hide B.Slip, AllFair, Fills, SellLeg, BuyLeg;
    if s.position > 0 {
      LeftFills(initial, s, opens, config);
    }
    if target > 0 {
      EnteredFills(initial, Left(s, opens, config), target, opens, config);
    }
  }

  lemma CashAfterSale(initial: real, trades: seq<Trade>, t: Trade)
    requires t.cashAfter == CashReplay(initial, trades) + CashFlow(t)
    ensures CashReplay(initial, trades + [t]) == t.cashAfter
  {
    assert (trades + [t])[..|trades|] == trades;
  }

  lemma MovedOrders(initial: real, s: State, n: State, target: nat, opens: seq<real>, closes: seq<real>,
                    config: B.Config)
    requires config.Valid() && Consistent(initial, s) && Consistent(initial, n) && AllFair(initial, s.o.trades, config)
    requires s.position <= |opens| && target <= |opens| == |closes| && forall k :: 0 <= k < |opens| ==> opens[k] > 0.0
    requires n == Advanced(s, target, opens, closes, config)
    ensures Fills(n.o.trades) == Fills(s.o.trades) + ChangeOrders(s.position, target, opens, config)
    ensures AllFair(initial, n.o.trades, config) && s.o.trades <= n.o.trades
    ensures n.o.rows == s.o.rows + [Row(target, n.holding, ValueOf(initial, n.o.trades, target, closes))]
    ensures Replay(n.o.trades).Holding? <==> target > 0
  {
    hide Fills, AllFair, Left, Entered, B.TradeValue, WellLogged, SumBy, CashReplay, Replay;
    if target != s.position {
      MovedFills(initial, s, target, opens, config);
    }
    hide ChangeOrders;
  }

  lemma MarkedLater(initial: real, o: Outcome, n: Outcome, opens: seq<seq<real>>, closes: seq<seq<real>>, assets: nat,
                    config: B.Config, i: nat)
    requires Positioned(o.rows, opens, closes, assets) && Positioned(n.rows, opens, closes, assets)
    requires i < |o.rows| <= |n.rows| && n.rows[i] == o.rows[i] && o.trades <= n.trades
    requires Marked(initial, o.trades, o.rows, opens, closes, assets, config, i)
    requires OrdersOf(o.rows, opens, closes, assets, config, i + 1)
             == OrdersOf(n.rows, opens, closes, assets, config, i + 1)
    ensures Marked(initial, n.trades, n.rows, opens, closes, assets, config, i)
  {
    hide OrdersOf, ValueOf, Replay, WellFormedBars;
    var count := |OrdersOf(o.rows, opens, closes, assets, config, i + 1)|;
    assert n.trades[..count] == o.trades[..count];
  }

  lemma NowMarked(initial: real, o: Outcome, opens: seq<seq<real>>, closes: seq<seq<real>>, assets: nat,
                  config: B.Config, i: nat)
    requires Positioned(o.rows, opens, closes, assets) && i + 1 == |o.rows|
    requires Fills(o.trades) == OrdersOf(o.rows, opens, closes, assets, config, i + 1)
    requires Replay(o.trades).Holding? <==> o.rows[i].position > 0
    requires o.rows[i].equity == ValueOf(initial, o.trades, o.rows[i].position, closes[i + 1])
    ensures Marked(initial, o.trades, o.rows, opens, closes, assets, config, i)
  {
    hide OrdersOf, ValueOf, Replay, WellFormedBars;
    assert o.trades[..|o.trades|] == o.trades;
  }

  lemma OrdersAppend(rows: seq<Row>, row: Row, opens: seq<seq<real>>, closes: seq<seq<real>>, assets: nat,
                     config: B.Config)
    requires Positioned(rows, opens, closes, assets) && |rows| + 1 < |opens| && row.position <= assets
    ensures Positioned(rows + [row], opens, closes, assets)
    ensures var d := |rows|;
            && OrdersOf(rows + [row], opens, closes, assets, config, d + 1)
               == OrdersOf(rows, opens, closes, assets, config, d)
                  + ChangeOrders(Before(rows, d).position, row.position, opens[d + 1], config)
            && forall i :: 0 <= i <= d ==> OrdersOf(rows + [row], opens, closes, assets, config, i)
                                           == OrdersOf(rows, opens, closes, assets, config, i)
  {
    hide ChangeOrders, WellFormedBars;
    var longer := rows + [row];
    assert Positioned(longer, opens, closes, assets);
    forall i | 0 <= i <= |rows|
      ensures OrdersOf(longer, opens, closes, assets, config, i) == OrdersOf(rows, opens, closes, assets, config, i)
    {
      OrdersAgree(rows, longer, opens, closes, assets, config, i);
    }
  }

  /** A session carries the execution on: its orders, its row and its fair trades. */
  lemma ExecutedAdvances(initial: real, o: Outcome, n: Outcome, row: Row, opens: seq<seq<real>>,
                         closes: seq<seq<real>>, assets: nat, config: B.Config)
    requires Executed(initial, o, opens, closes, assets, config, false) && |o.rows| + 1 < |opens|
    requires n.rows == o.rows + [row] && row.position <= assets && o.trades <= n.trades
    requires Fills(n.trades)
             == Fills(o.trades)
                + ChangeOrders(Before(o.rows, |o.rows|).position, row.position, opens[|o.rows| + 1], config)
    requires AllFair(initial, n.trades, config) && (Replay(n.trades).Holding? <==> row.position > 0)
    requires row.equity == ValueOf(initial, n.trades, row.position, closes[|o.rows| + 1])
    ensures Executed(initial, n, opens, closes, assets, config, false)
  {
    hide Fills, AllFair, ValueOf, ChangeOrders, Marked, Replay, WellFormedBars, OrdersOf;
    var d := |o.rows|;
    OrdersAppend(o.rows, row, opens, closes, assets, config);
    forall i | 0 <= i <= d
      ensures Marked(initial, n.trades, n.rows, opens, closes, assets, config, i)
    {
      if i < d {
        MarkedLater(initial, o, n, opens, closes, assets, config, i);
      } else {
        NowMarked(initial, n, opens, closes, assets, config, d);
      }
    }
  }

  lemma SessionExecuted(initial: real, s: State, n: State, target: nat, opens: seq<seq<real>>,
                        closes: seq<seq<real>>, assets: nat, config: B.Config)
    requires config.Valid() && Consistent(initial, s) && Consistent(initial, n)
    requires Executed(initial, s.o, opens, closes, assets, config, false) && |s.o.rows| + 1 < |opens|
    requires s.position <= assets && target <= assets
    requires Before(s.o.rows, |s.o.rows|).position == s.position
    requires n == Advanced(s, target, opens[|s.o.rows| + 1], closes[|s.o.rows| + 1], config)
    ensures Executed(initial, n.o, opens, closes, assets, config, false)
  {
    hide Fills, ValueOf, ChangeOrders, Marked, Replay, OrdersOf, Advanced, CashReplay, WellLogged, SumBy, AllFair;
    var d := |s.o.rows|;
    MovedOrders(initial, s, n, target, opens[d + 1], closes[d + 1], config);
    hide Consistent;
    ExecutedAdvances(initial, s.o, n.o, n.o.rows[d], opens, closes, assets, config);
  }

  lemma SettledInCash(s: State, closes: seq<real>, config: B.Config)
    requires s.position <= |closes|
    ensures s.position == 0 ==> Settled(s, closes, config) == s.o
  {
  }

  /** The bookkeeping sale completes it. */
  lemma ExecutedSettles(initial: real, s: State, n: Outcome, opens: seq<seq<real>>, closes: seq<seq<real>>, assets: nat,
                        config: B.Config)
    requires Executed(initial, s.o, opens, closes, assets, config, false)
    requires var d := |s.o.rows|;
             && d > 0 && Before(s.o.rows, d).position == s.position <= assets
             && s.o.cash == CashReplay(initial, s.o.trades)
             && n == Settled(s, closes[d], config)
    ensures Executed(initial, n, opens, closes, assets, config, true)
  {
    hide Fills, AllFair, Fair, ValueOf, ChangeOrders, Marked, Replay, OrdersOf, CashReplay, B.Slip;
    hide B.ReferenceFees, B.TradeValue;
    var d := |s.o.rows|;
    assert |closes[d]| == assets;
    hide WellFormedBars;
    if s.position > 0 {
      var t := SellLeg(FINAL_SELL, s.position, s.quantity, s.entryPrice, closes[d][s.position - 1], s.o.cash, config);
      SellIsFair(initial, s.o.trades, FINAL_SELL, s.position, s.quantity, s.entryPrice, closes[d][s.position - 1],
                 config);
      FillsAppend(s.o.trades, t);
      FairAppend(initial, s.o.trades, t, config);
      OrdersAgree(s.o.rows, n.rows, opens, closes, assets, config, d);
      forall i | 0 <= i < d - 1
        ensures Marked(initial, n.trades, n.rows, opens, closes, assets, config, i)
      {
        OrdersAgree(s.o.rows, n.rows, opens, closes, assets, config, i + 1);
        MarkedLater(initial, s.o, n, opens, closes, assets, config, i);
      }
    }
  }

  lemma NothingExecuted(initial: real, opens: seq<seq<real>>, closes: seq<seq<real>>, assets: nat, config: B.Config)
    requires |opens| == |closes| > 0 && WellFormedBars(opens, assets) && WellFormedBars(closes, assets)
    ensures Executed(initial, Outcome([], [], initial, 0.0, 0.0, 0), opens, closes, assets, config, false)
  {
  }

  /** _simulate_exact: decide at session d, execute at the open of session d + 1. */
  method Simulate(initial: real, assets: nat, policy: (nat, nat, nat) -> nat, opens: seq<seq<real>>,
                  closes: seq<seq<real>>, config: B.Config)
    returns (r: Result<Outcome, Error>)
    requires config.Valid() && |closes| == |opens|
    requires WellFormedBars(opens, assets) && WellFormedBars(closes, assets)
    requires forall d, p, h :: policy(d, p, h) <= assets
    ensures r.Err? <==> |opens| < 2
    ensures r.Ok? ==>
              r.value == Settled(StateAfter(initial, assets, policy, opens, closes, config, |opens| - 1),
                                 closes[|opens| - 1], config)
    ensures r.Ok? ==> Executed(initial, r.value, opens, closes, assets, config, true)
    ensures r.Ok? ==> Accounted(initial, r.value) && !Replay(r.value.trades).Holding?
    ensures r.Ok? ==> FollowsPolicy(r.value.rows, policy)
    ensures r.Ok? ==> |r.value.rows| == |opens| - 1 && r.value.rows[|opens| - 2].equity == r.value.cash
    ensures r.Ok? ==> r.value.cash == initial + SumBy(r.value.trades, REALIZED) - SumBy(r.value.trades, BUY_FEE)
  {
    hide Advanced, StepLeg, WellLogged, SumBy, Replay, CashReplay, Rotations, FollowsPolicy, SellLeg;
    hide Executed, Settled;
    if |opens| < 2 {
      return Err(IntervalTooShort);
    }
    var s := State(Outcome([], [], initial, 0.0, 0.0, 0), 0, 0.0, 0.0, 0);
    EmptyLog(initial);
    FollowsEmpty(policy);
    NothingExecuted(initial, opens, closes, assets, config);
    assert Consistent(initial, s);
    var idx := 0;
    while idx < |opens| - 1
      invariant 0 <= idx <= |opens| - 1 && |s.o.rows| == idx && s.position <= assets
      invariant s == StateAfter(initial, assets, policy, opens, closes, config, idx)
      invariant Consistent(initial, s) && AccountedRows(s.o)
      invariant FollowsPolicy(s.o.rows, policy) && Executed(initial, s.o, opens, closes, assets, config, false)
      invariant Before(s.o.rows, idx).position == s.position && Before(s.o.rows, idx).holding == s.holding
      invariant idx > 0 && s.position == 0 ==> Before(s.o.rows, idx).equity == s.o.cash
    {
      var target := policy(idx, s.position, s.holding);
      var n := Advance(initial, s, target, opens[idx + 1], closes[idx + 1], config);
      FollowsAppend(s.o.rows, policy, Before(n.o.rows, idx + 1));
      SessionExecuted(initial, s, n, target, opens, closes, assets, config);
      s := n;
      idx := idx + 1;
    }
    var o := s.o;
    ExecutedSettles(initial, s, Settled(s, closes[idx], config), opens, closes, assets, config);
    SettledInCash(s, closes[idx], config);
    if s.position > 0 {
      o := Liquidate(initial, s, closes[idx], config);
      FollowsIgnoresEquity(s.o.rows, o.rows, policy);
    }
    LedgerIdentity(initial, o.trades);
    return Ok(o);
  }

  lemma EmptyLog(initial: real)
    ensures Replay([]) == Flat && WellLogged(initial, []) && CashReplay(initial, []) == initial
    ensures SumBy([], FEE) == 0.0 && SumBy([], GROSS) == 0.0 && Rotations([]) == 0
  {
  }

  lemma FollowsEmpty(policy: (nat, nat, nat) -> nat)
    ensures FollowsPolicy([], policy)
  {
  }

  lemma FollowsAppend(rows: seq<Row>, policy: (nat, nat, nat) -> nat, row: Row)
    requires FollowsPolicy(rows, policy)
    requires Follows(|rows|, Before(rows, |rows|), row, policy)
    ensures FollowsPolicy(rows + [row], policy)
  {
    var longer := rows + [row];
    forall i | 0 <= i < |longer|
      ensures Follows(i, Before(longer, i), longer[i], policy)
    {
      assert Before(longer, i) == Before(rows, i);
    }
  }

  lemma FollowsIgnoresEquity(a: seq<Row>, b: seq<Row>, policy: (nat, nat, nat) -> nat)
    requires FollowsPolicy(a, policy) && |a| == |b|
    requires forall i :: 0 <= i < |a| ==> b[i].position == a[i].position && b[i].holding == a[i].holding
    ensures FollowsPolicy(b, policy)
  {
    forall i | 0 <= i < |b|
      ensures Follows(i, Before(b, i), b[i], policy)
    {
      assert Follows(i, Before(a, i), a[i], policy);
    }
  }

  lemma RotationsAppend(rows: seq<Row>, row: Row)
    ensures Rotations(rows + [row])
            == Rotations(rows) + (if rows != [] && rows[|rows| - 1].position > 0 && row.position > 0
                                     && rows[|rows| - 1].position != row.position then 1 else 0)
  {
    assert (rows + [row])[..|rows|] == rows;
  }

  lemma {:induction false} RotationsIgnoreEquity(a: seq<Row>, b: seq<Row>)
    requires |a| == |b| && forall i :: 0 <= i < |a| ==> a[i].position == b[i].position
    ensures Rotations(a) == Rotations(b)
  {
    if |a| >= 2 {
      RotationsIgnoreEquity(a[..|a| - 1], b[..|b| - 1]);
    }
  }
}
