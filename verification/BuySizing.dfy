/**
 Fees of engine/compound_rotation_backtest.py and the fee-aware BUY sizing of
 engine/capital_rotation.py.

 The sizing iterates q := (cash - fee(q)) / price with a fee rounded up to whole cents. The map is
 antitone, so odd iterates lie below and even iterates above the answer, and the loop may oscillate
 for ever. Main result: after any odd number of rounds, converged or not, the quantity is affordable
 and no more than the first fee (plus one share for whole shares) is left unspent
 (OddRoundsAffordable, ExecuteBuy). What an even number of rounds does is in BenchmarkSizing.
 */
module BuySizing {
  import opened Common

  const CENT_TOLERANCE: real := 0.000000000001
  const QUANTITY_TOLERANCE: real := 0.0000000001
  const MAX_PRICE: real := 100000000.0
  const ROUNDS: nat := 25

  datatype Config = Config(commissionRate: real, catFeePerShare: real, secFeeRate: real, tafFeePerShare: real,
                           tafFeeCap: real, slippageBps: real, fractionalShares: bool)
  {
    /** The request schema's lower bounds. */
    predicate Valid() {
      commissionRate >= 0.0 && catFeePerShare >= 0.0 && slippageBps >= 0.0
    }
  }

  datatype Side = Buy | Sell

  datatype Fees = Fees(commission: real, sec: real, taf: real, cat: real) {
    function Total(): real { commission + sec + taf + cat }
  }

  function Ceiling(x: real): int { -(-x).Floor }

  function FeeCents(value: real): int {
    if value <= 0.0 then 0 else Ceiling((value - CENT_TOLERANCE) * 100.0)
  }

  function RoundFeeToCent(value: real): real {
    FeeCents(value) as real / 100.0
  }

  function TradeValue(quantity: real, price: real): real { quantity * price }

  function RateFee(base: real, rate: real): real { RoundFeeToCent(base * rate) }

  function TafBase(quantity: real, config: Config): real { quantity * config.tafFeePerShare }

  function ReferenceFees(side: Side, quantity: real, price: real, config: Config): Fees {
    if quantity <= 0.0 || price <= 0.0 then Fees(0.0, 0.0, 0.0, 0.0)
    else
      var value := TradeValue(quantity, price);
      var commission := RateFee(value, config.commissionRate);
      var cat := RateFee(quantity, config.catFeePerShare);
      match side
      case Buy => Fees(commission, 0.0, 0.0, cat)
      case Sell => Fees(commission, RateFee(value, config.secFeeRate),
                        RoundFeeToCent(Min(TafBase(quantity, config), config.tafFeeCap)), cat)
  }

  function Slip(price: real, side: Side, config: Config): real {
    var adjustment := config.slippageBps / 10000.0;
    price * (if side.Buy? then 1.0 + adjustment else 1.0 - adjustment)
  }

  // ---------------------------------------------------------------- what a fee is

  lemma CeilingIsLeast(x: real, n: int)
    ensures x <= Ceiling(x) as real < x + 1.0
    ensures n as real >= x ==> Ceiling(x) <= n
  {
  }

  lemma CentsAreWhole(n: int)
    requires n >= 0
    ensures WholeCents(n as real / 100.0)
  {
    assert 100.0 * (n as real / 100.0) == n as real;
  }

  /** A fee is the least whole number of cents that covers its value up to the tolerance. */
  lemma FeeIsLeastCover(value: real, cents: int)
    ensures WholeCents(RoundFeeToCent(value))
    ensures value <= 0.0 ==> RoundFeeToCent(value) == 0.0
    ensures value > 0.0 ==> value - CENT_TOLERANCE <= RoundFeeToCent(value) < value - CENT_TOLERANCE + 0.01
    ensures value > 0.0 && cents as real / 100.0 >= value - CENT_TOLERANCE ==>
              RoundFeeToCent(value) <= cents as real / 100.0
  {
    hide Ceiling, WholeCents;
    var x := (value - CENT_TOLERANCE) * 100.0;
    CeilingIsLeast(x, cents);
    CeilingIsLeast(x, -1);
    FeeCentsMonotone(value, value);
    CentsAreWhole(FeeCents(value));
  }

  /** A fee on a base: whole cents, none on nothing, and otherwise the least that cover the base up to the
      tolerance. */
  predicate IsFeeOn(fee: real, base: real) {
    WholeCents(fee) && if base <= 0.0 then fee == 0.0 else base - CENT_TOLERANCE <= fee < base - CENT_TOLERANCE + 0.01
  }

  predicate IsRateFee(fee: real, base: real, rate: real) { IsFeeOn(fee, base * rate) }

  lemma RateIsFee(base: real, rate: real)
    ensures IsRateFee(RateFee(base, rate), base, rate)
  {
    RoundedIsFee(base * rate);
  }

  lemma RoundedIsFee(base: real)
    ensures IsFeeOn(RoundFeeToCent(base), base)
  {
    hide RoundFeeToCent, WholeCents;
    FeeIsLeastCover(base, 0);
  }

  /** Commission on the value and CAT on the shares on both sides; SEC on the value and TAF on the shares, up
      to its cap, on sales only; nothing else. */
  lemma FeesBySide(side: Side, quantity: real, price: real, config: Config)
    requires quantity > 0.0 && price > 0.0
    ensures var f := ReferenceFees(side, quantity, price, config);
            && f.Total() == f.commission + f.cat + f.sec + f.taf
            && IsRateFee(f.commission, TradeValue(quantity, price), config.commissionRate)
            && IsRateFee(f.cat, quantity, config.catFeePerShare)
            && (side == Buy ==> f.sec == 0.0 && f.taf == 0.0)
            && (side == Sell ==> IsRateFee(f.sec, TradeValue(quantity, price), config.secFeeRate))
            && (side == Sell ==> IsFeeOn(f.taf, Min(TafBase(quantity, config), config.tafFeeCap)))
            && (side == Sell ==>
                  f.taf == Min(RoundFeeToCent(TafBase(quantity, config)), RoundFeeToCent(config.tafFeeCap)))
  {
    hide TradeValue, TafBase, RateFee, IsRateFee, IsFeeOn, RoundFeeToCent;
    var value, taf, cap := TradeValue(quantity, price), TafBase(quantity, config), config.tafFeeCap;
    RateIsFee(value, config.commissionRate);
    RateIsFee(quantity, config.catFeePerShare);
    RateIsFee(value, config.secFeeRate);
    RoundedIsFee(Min(taf, cap));
    if taf <= cap {
      RoundFeeMonotone(taf, cap);
    } else {
      RoundFeeMonotone(cap, taf);
    }
  }

  lemma RoundFeeMonotone(a: real, b: real)
    requires a <= b
    ensures RoundFeeToCent(a) <= RoundFeeToCent(b)
  {
    FeeCentsMonotone(a, b);
  }

  lemma RoundFeeNonNegative(value: real)
    ensures RoundFeeToCent(value) >= 0.0
  {
    FeeCentsMonotone(value, value);
  }

  lemma FeesNonNegative(side: Side, quantity: real, price: real, config: Config)
    ensures ReferenceFees(side, quantity, price, config).Total() >= 0.0
  {
    hide RoundFeeToCent, TradeValue, TafBase;
    var value := TradeValue(quantity, price);
    RateFeeNonNegative(value, config.commissionRate);
    RateFeeNonNegative(quantity, config.catFeePerShare);
    RateFeeNonNegative(value, config.secFeeRate);
    RoundFeeNonNegative(Min(TafBase(quantity, config), config.tafFeeCap));
    hide RateFee;
  }

  lemma RateFeeNonNegative(base: real, rate: real)
    ensures RateFee(base, rate) >= 0.0
  {
    RoundFeeNonNegative(base * rate);
  }

  /** Slippage is never in the trader's favour: so many basis points of the price on either side. */
  lemma SlipIsAdverse(price: real, config: Config)
    requires config.Valid() && price >= 0.0
    ensures Slip(price, Buy, config) == price + price * (config.slippageBps / 10000.0)
    ensures Slip(price, Sell, config) <= price <= Slip(price, Buy, config)
    ensures Slip(price, Buy, config) - price == price - Slip(price, Sell, config)
  {
    var adjustment := config.slippageBps / 10000.0;
    assert price * adjustment >= 0.0;
  }

  // ---------------------------------------------------------------- the fee is a monotone step

  predicate WholeCents(fee: real) {
    fee >= 0.0 && (100.0 * fee).Floor as real == 100.0 * fee
  }

  function BuyFee(quantity: real, price: real, config: Config): real {
    ReferenceFees(Buy, quantity, price, config).Total()
  }

  function BuyFeeCents(quantity: real, value: real, config: Config): int {
    if quantity <= 0.0 then 0
    else RateCents(value, config.commissionRate) + RateCents(quantity, config.catFeePerShare)
  }

  function RateCents(base: real, rate: real): int { FeeCents(base * rate) }

  lemma FeeCentsMonotone(a: real, b: real)
    requires a <= b
    ensures 0 <= FeeCents(a) <= FeeCents(b)
  {
  }

  lemma MulMonotone(a: real, b: real, k: real)
    requires a <= b && k >= 0.0
    ensures a * k <= b * k
  {
    assert (b - a) * k >= 0.0;
  }

  lemma BuyFeeInCents(quantity: real, price: real, config: Config)
    requires price > 0.0
    ensures BuyFee(quantity, price, config)
            == BuyFeeCents(quantity, TradeValue(quantity, price), config) as real / 100.0
  {
    hide FeeCents;
    hide TradeValue;
  }

  lemma BuyFeeCentsMonotone(a: real, b: real, va: real, vb: real, config: Config)
    requires config.Valid() && a <= b && va <= vb
    ensures 0 <= BuyFeeCents(a, va, config) <= BuyFeeCents(b, vb, config)
  {
    hide RateCents;
    RateCentsMonotone(va, vb, config.commissionRate);
    RateCentsMonotone(a, b, config.catFeePerShare);
  }

  lemma RateCentsMonotone(a: real, b: real, rate: real)
    requires a <= b && rate >= 0.0
    ensures 0 <= RateCents(a, rate) <= RateCents(b, rate)
  {
    hide FeeCents;
    MulMonotone(a, b, rate);
    FeeCentsMonotone(a * rate, b * rate);
  }

  // ---------------------------------------------------------------- one round of the sizing loop

  /** A fee schedule as the sizing loop sees it: a callable of the quantity. */
  type FeeSchedule = real -> real

  ghost predicate StepFee(fee: FeeSchedule) {
    && (forall q :: q <= 0.0 ==> fee(q) == 0.0)
    && (forall q :: WholeCents(fee(q)))
    && (forall a, b :: a <= b ==> fee(a) <= fee(b))
  }

  function BuySchedule(price: real, config: Config): FeeSchedule {
    quantity => BuyFee(quantity, price, config)
  }

  lemma BuyScheduleIsStepFee(price: real, config: Config)
    requires config.Valid() && price > 0.0
    ensures StepFee(BuySchedule(price, config))
  {
    hide BuyFee;
    hide BuyFeeCents;
    forall a, b | a <= b
      ensures BuyFee(a, price, config) <= BuyFee(b, price, config)
      ensures WholeCents(BuyFee(a, price, config))
      ensures a <= 0.0 ==> BuyFee(a, price, config) == 0.0
    {
      BuyFeeInCents(a, price, config);
      BuyFeeInCents(b, price, config);
      CancelValue(a, b, price);
      BuyFeeCentsMonotone(a, b, TradeValue(a, price), TradeValue(b, price), config);
      NoFeeOnNothing(a, price, config);
    }
    forall q
      ensures WholeCents(BuyFee(q, price, config)) && (q <= 0.0 ==> BuyFee(q, price, config) == 0.0)
    {
      assert q <= q;
    }
  }

  lemma NoFeeOnNothing(quantity: real, price: real, config: Config)
    ensures quantity <= 0.0 ==> BuyFee(quantity, price, config) == 0.0
  {
  }

  /** The order being sized. */
  datatype Order = Order(cash: real, price: real, fee: FeeSchedule, fractional: bool) {

    ghost predicate Valid() { price > 0.0 && StepFee(fee) }

    function Start(): real
      requires price > 0.0
    {
      cash / price
    }

    function RawNext(quantity: real): real
      requires price > 0.0
    {
      Max(0.0, (cash - fee(quantity)) / price)
    }

    function Next(quantity: real): real
      requires price > 0.0
    {
      if fractional then RawNext(quantity) else RawNext(quantity).Floor as real
    }

    /** At most rounds further rounds from quantity, stopping early on a small change. */
    function Size(quantity: real, rounds: nat): real
      requires price > 0.0
      decreases rounds
    {
      if rounds == 0 then quantity
      else
        var next := Next(quantity);
        if Abs(next - quantity) < QUANTITY_TOLERANCE then next else Size(next, rounds - 1)
    }

    predicate Covers(quantity: real) {
      quantity >= 0.0 && TradeValue(quantity, price) + fee(quantity) <= cash
    }

    /** All that is left over is the fee on the whole cash and, for whole shares, part of a share. */
    predicate SpendsEnough(quantity: real)
      requires price > 0.0
    {
      cash - TradeValue(quantity, price) <= fee(Start()) + (if fractional then 0.0 else price)
    }
  }

  lemma QuotientValue(x: real, p: real)
    requires p > 0.0
    ensures TradeValue(x / p, p) == x
    ensures x <= 0.0 <==> x / p <= 0.0
  {
    var q := x / p;
    assert q * p == x;
    CancelValue(q, 0.0, p);
  }

  lemma CancelValue(a: real, b: real, p: real)
    requires p > 0.0
    ensures TradeValue(a, p) <= TradeValue(b, p) <==> a <= b
    ensures TradeValue(a, p) == TradeValue(b, p) <==> a == b
    ensures TradeValue(0.0, p) == 0.0
    ensures TradeValue(a, p) == TradeValue(b, p) + TradeValue(a - b, p)
    ensures TradeValue(a + 1.0, p) == TradeValue(a, p) + p
  {
    var d := a - b;
    assert d * p == a * p - b * p;
    assert d > 0.0 ==> d * p > 0.0;
    assert d < 0.0 ==> d * p < 0.0;
  }

  /** What one round says about price and cash, free of division. */
  lemma NextFacts(o: Order, q: real)
    requires o.Valid()
    ensures 0.0 <= o.Next(q) <= o.RawNext(q) < o.Next(q) + 1.0
    ensures !o.fractional ==> o.Next(q).Floor as real == o.Next(q)
    ensures o.fractional ==> o.Next(q) == o.RawNext(q)
    ensures TradeValue(o.RawNext(q), o.price) == Max(0.0, o.cash - o.fee(q))
  {
    hide TradeValue;
    hide StepFee;
    QuotientValue(o.cash - o.fee(q), o.price);
    CancelValue(0.0, 0.0, o.price);
  }

  /** A larger quantity pays a larger fee and leaves less for the next round. */
  lemma NextAntitone(o: Order, a: real, b: real)
    requires o.Valid() && a <= b
    ensures o.Next(b) <= o.Next(a)
    ensures 0.0 <= o.fee(a) <= o.fee(b)
  {
    hide Order.RawNext;
    hide StepFee;
    FeeMonotone(o, a, b);
    RawNextAntitone(o, a, b);
    FloorMonotone(o.RawNext(b), o.RawNext(a));
  }

  lemma FloorMonotone(x: real, y: real)
    requires x <= y
    ensures x.Floor <= y.Floor
  {
  }

  lemma FeeMonotone(o: Order, a: real, b: real)
    requires o.Valid() && a <= b
    ensures 0.0 <= o.fee(a) <= o.fee(b)
  {
    assert WholeCents(o.fee(a));
  }

  lemma RawNextAntitone(o: Order, a: real, b: real)
    requires o.Valid() && a <= b
    ensures o.RawNext(b) <= o.RawNext(a)
  {
    hide Order.Next;
    hide Order.RawNext;
    hide TradeValue;
    hide StepFee;
    NextFacts(o, a);
    NextFacts(o, b);
    FeeMonotone(o, a, b);
    CancelValue(o.RawNext(b), o.RawNext(a), o.price);
  }

  /** An iterate that does not exceed its predecessor is affordable. */
  lemma LowerIterateCovers(o: Order, q: real, n: real)
    requires o.Valid() && o.cash >= 0.0 && n == o.Next(q) && n <= q
    ensures o.Covers(n)
  {
    hide Order.Next;
    hide Order.RawNext;
    NextFacts(o, q);
    NextAntitone(o, n, q);
    var raw := o.RawNext(q);
    CancelValue(n, raw, o.price);
    CancelValue(0.0, raw, o.price);
  }

  /** Fees are whole cents and the price is at most 1e8, so consecutive images of the map that
      differ at all differ by the tolerance or more. */
  lemma ImagesAreApart(o: Order, q: real, n: real, m: real)
    requires o.Valid() && o.price <= MAX_PRICE && o.cash >= 0.0
    requires n == o.Next(q) && m == o.Next(n) && n <= m < n + QUANTITY_TOLERANCE
    requires TradeValue(q, o.price) <= o.cash && q >= n + QUANTITY_TOLERANCE
    ensures m == n
  {
    hide Order.RawNext;
    hide StepFee;
    hide TradeValue;
    NextFacts(o, q);
    NextFacts(o, n);
    FeeOfNothing(o);
    CancelValue(q, m, o.price);
    if !o.fractional {
      assert m - n == (o.RawNext(n).Floor - o.RawNext(q).Floor) as real;
    } else if n > 0.0 {
      CentsApart(o, q, n, m);
    }
  }

  lemma FeeOfNothing(o: Order)
    requires o.Valid()
    ensures o.fee(0.0) == 0.0
  {
  }

  lemma CentsApart(o: Order, q: real, n: real, m: real)
    requires o.Valid() && o.price <= MAX_PRICE && 0.0 < n <= m < n + QUANTITY_TOLERANCE
    requires TradeValue(n, o.price) == Max(0.0, o.cash - o.fee(q))
    requires TradeValue(m, o.price) == Max(0.0, o.cash - o.fee(n))
    ensures m == n
  {
    hide TradeValue;
    assert WholeCents(o.fee(q)) && WholeCents(o.fee(n));
    CancelValue(0.0, n, o.price);
    CancelValue(0.0, m, o.price);
    CancelValue(m, n, o.price);
    StepIsSmall(m - n, o.price);
    CentStep(o.fee(q), o.fee(n), TradeValue(m - n, o.price));
  }

  lemma CentStep(a: real, b: real, step: real)
    requires WholeCents(a) && WholeCents(b) && step == a - b && 0.0 <= step < 0.01
    ensures step == 0.0
  {
    var x, y := (100.0 * a).Floor, (100.0 * b).Floor;
    assert -1 < x - y < 1;
  }

  lemma StepIsSmall(d: real, price: real)
    requires 0.0 <= d < QUANTITY_TOLERANCE && 0.0 < price <= MAX_PRICE
    ensures 0.0 <= TradeValue(d, price) < 0.01
  {
    assert 100000000.0 * d < 0.01;
    MulMonotone(0.0, d, price);
    MulMonotone(price, 100000000.0, d);
    assert price * d < 0.01;
  }

  // ---------------------------------------------------------------- any odd number of rounds

  lemma SizeStep(o: Order, q: real, n: real, rounds: nat)
    requires o.price > 0.0 && n == o.Next(q)
    ensures o.Size(q, 0) == q
    ensures rounds > 0 ==>
              o.Size(q, rounds) == if Abs(n - q) < QUANTITY_TOLERANCE then n else o.Size(n, rounds - 1)
  {
    hide Order.Next;
    hide Order.RawNext;
  }

  /** From an iterate above the answer, an odd number of rounds ends below it, whether or not the
      iteration converges. */
  lemma {:induction false} OddRoundsFrom(o: Order, q: real, rounds: nat)
    requires o.Valid() && o.price <= MAX_PRICE && o.cash >= 0.0
    requires rounds % 2 == 1 && o.Next(q) <= q <= o.Start() && TradeValue(q, o.price) <= o.cash
    ensures o.Covers(o.Size(q, rounds))
    ensures o.Next(o.Start()) <= o.Size(q, rounds)
    decreases rounds
  {
    hide StepFee;
    hide Order.Next;
    hide Order.RawNext;
    hide Order.Size;
    hide Order.Start;
    hide Order.Covers;
    var n := o.Next(q);
    var m := o.Next(n);
    SizeStep(o, q, n, rounds);
    LowerIterateCovers(o, q, n);
    NextAntitone(o, q, o.Start());
    NextAntitone(o, n, q);
    SizeStep(o, n, m, rounds - 1);
    if q - n >= QUANTITY_TOLERANCE && rounds > 1 {
      if m - n < QUANTITY_TOLERANCE {
        ImagesAreApart(o, q, n, m);
      } else {
        NextAntitone(o, n, m);
        UpperIterateInRange(o, n);
        OddRoundsFrom(o, m, rounds - 2);
      }
    }
  }

  lemma UpperIterateInRange(o: Order, n: real)
    requires o.Valid() && o.cash >= 0.0
    ensures o.Next(n) <= o.Start() && TradeValue(o.Next(n), o.price) <= o.cash
  {
    hide Order.Next;
    hide Order.RawNext;
    NextFacts(o, n);
    NextAntitone(o, n, n);
    QuotientValue(o.cash, o.price);
    CancelValue(o.RawNext(n), o.Start(), o.price);
    CancelValue(o.Next(n), o.RawNext(n), o.price);
  }

  /** The answer of any odd number of rounds is affordable and spends nearly everything. */
  lemma OddRoundsAffordable(o: Order, rounds: nat)
    requires o.Valid() && o.price <= MAX_PRICE && o.cash >= 0.0 && rounds % 2 == 1
    ensures o.Covers(o.Size(o.Start(), rounds))
    ensures o.SpendsEnough(o.Size(o.Start(), rounds))
  {
    var q := o.Start();
    QuotientValue(o.cash, o.price);
    UpperIterateInRange(o, q);
    OddRoundsFrom(o, q, rounds);
    FirstRoundSpends(o, o.Size(q, rounds));
  }

  lemma FirstRoundSpends(o: Order, size: real)
    requires o.Valid() && size >= o.Next(o.Start())
    ensures o.SpendsEnough(size)
  {
    hide Order.Next;
    hide Order.RawNext;
    hide Order.Start;
    var q := o.Start();
    NextFacts(o, q);
    var n, raw := o.Next(q), o.RawNext(q);
    CancelValue(n, size, o.price);
    CancelValue(raw, n + 1.0, o.price);
    CancelValue(n, n, o.price);
  }

  /** With nothing to spend, nothing is bought. */
  lemma NoCashBuysNothing(o: Order, rounds: nat)
    requires o.Valid() && o.cash <= 0.0 && rounds > 0
    ensures o.Size(o.Start(), rounds) == 0.0
  {
    hide Order.Next;
    hide Order.RawNext;
    var q := o.Start();
    QuotientValue(o.cash, o.price);
    ZeroRound(o, q);
    ZeroRound(o, 0.0);
    assert rounds > 1 ==> o.Size(0.0, rounds - 1) == 0.0;
  }

  lemma ZeroRound(o: Order, q: real)
    requires o.Valid() && o.cash <= 0.0 && q <= 0.0
    ensures o.Next(q) == 0.0
  {
    QuotientValue(o.cash, o.price);
  }

  // ---------------------------------------------------------------- the loop

  function BuyOrder(cash: real, executionPrice: real, config: Config): Order {
    Order(cash, executionPrice, BuySchedule(executionPrice, config), config.fractionalShares)
  }

  /** The quantity the loop settles on for an execution price. */
  function BuyQuantity(cash: real, executionPrice: real, config: Config): real
    requires executionPrice > 0.0
  {
    var o := BuyOrder(cash, executionPrice, config);
    o.Size(o.Start(), ROUNDS)
  }

  lemma {:induction false} SizeIsImage(o: Order, q: real, rounds: nat)
    requires o.Valid() && rounds > 0
    ensures o.Size(q, rounds) >= 0.0
    ensures !o.fractional ==> o.Size(q, rounds).Floor as real == o.Size(q, rounds)
    decreases rounds
  {
    hide StepFee;
    hide Order.Size;
    hide Order.Next;
    hide Order.RawNext;
    NextFacts(o, q);
    SizeStep(o, q, o.Next(q), rounds);
    if rounds > 1 {
      SizeIsImage(o, o.Next(q), rounds - 1);
    } else {
      SizeStep(o, o.Next(q), o.Next(o.Next(q)), 0);
    }
  }

  /** The order sized by _execute_buy never costs more than the cash. */
  lemma BuyOrderAffordable(cash: real, executionPrice: real, config: Config)
    requires config.Valid() && executionPrice > 0.0
    ensures var o := BuyOrder(cash, executionPrice, config); var q := o.Size(o.Start(), ROUNDS);
            && o.Valid() && q >= 0.0 && (!config.fractionalShares ==> q.Floor as real == q)
            && (cash >= 0.0 && executionPrice <= MAX_PRICE ==> o.Covers(q) && o.SpendsEnough(q))
            && (cash <= 0.0 ==> q == 0.0)
  {
    hide StepFee;
    hide Order.Size;
    hide Order.Start;
    hide Order.Covers;
    hide Order.SpendsEnough;
    hide BuySchedule;
    var o := BuyOrder(cash, executionPrice, config);
    BuyScheduleIsStepFee(executionPrice, config);
    SizeIsImage(o, o.Start(), ROUNDS);
    if cash >= 0.0 && executionPrice <= MAX_PRICE {
      OddRoundsAffordable(o, ROUNDS);
    }
    if cash <= 0.0 {
      NoCashBuysNothing(o, ROUNDS);
    }
  }

  lemma BuyQuantityNonNegative(cash: real, executionPrice: real, config: Config)
    requires config.Valid() && executionPrice > 0.0
    ensures BuyQuantity(cash, executionPrice, config) >= 0.0
  {
    hide Order.Size, Order.Start, BuySchedule;
    BuyOrderAffordable(cash, executionPrice, config);
  }

  /** The sizing loop: at most so many rounds from cash / price, then the fees on the result. */
  method SizeInRounds(cash: real, executionPrice: real, config: Config, rounds: nat)
    returns (quantity: real, fees: Fees)
    requires executionPrice > 0.0
    ensures var o := BuyOrder(cash, executionPrice, config); quantity == o.Size(o.Start(), rounds)
    ensures fees == ReferenceFees(Buy, quantity, executionPrice, config)
  {
    hide ReferenceFees;
    hide Order.Size;
    ghost var o := BuyOrder(cash, executionPrice, config);
    quantity := cash / executionPrice;
    var round := 0;
    while round < rounds
      invariant 0 <= round <= rounds
      invariant o.Size(quantity, rounds - round) == o.Size(o.Start(), rounds)
    {
      fees := ReferenceFees(Buy, quantity, executionPrice, config);
      var nextQuantity := Max(0.0, (cash - fees.Total()) / executionPrice);
      if !config.fractionalShares {
        nextQuantity := nextQuantity.Floor as real;
      }
      assert nextQuantity == o.Next(quantity);
      SizeStep(o, quantity, nextQuantity, rounds - round);
      if Abs(nextQuantity - quantity) < QUANTITY_TOLERANCE {
        quantity := nextQuantity;
        break;
      }
      quantity := nextQuantity;
      round := round + 1;
    }
    SizeStep(o, quantity, o.Next(quantity), 0);
    fees := ReferenceFees(Buy, quantity, executionPrice, config);
  }

  /** _execute_buy. */
  method ExecuteBuy(cash: real, price: real, config: Config)
    returns (quantity: real, executionPrice: real, fees: Fees)
    requires config.Valid() && price > 0.0
    ensures executionPrice == Slip(price, Buy, config) && executionPrice > 0.0
    ensures fees == ReferenceFees(Buy, quantity, executionPrice, config)
    ensures quantity == BuyQuantity(cash, executionPrice, config)
    ensures quantity >= 0.0 && (!config.fractionalShares ==> quantity.Floor as real == quantity)
    ensures cash >= 0.0 && executionPrice <= MAX_PRICE ==>
              TradeValue(quantity, executionPrice) + fees.Total() <= cash
    ensures cash <= 0.0 ==> quantity == 0.0
  {
    hide Slip, ReferenceFees, Order.Size, Order.Start, StepFee;
    executionPrice := Slip(price, Buy, config);
    SlipPositive(price, config);
    BuyOrderAffordable(cash, executionPrice, config);
    quantity, fees := SizeInRounds(cash, executionPrice, config, ROUNDS);
  }

  lemma SlipPositive(price: real, config: Config)
    requires config.Valid() && price > 0.0
    ensures Slip(price, Buy, config) > 0.0
  {
    MulMonotone(1.0, 1.0 + config.slippageBps / 10000.0, price);
  }
}
