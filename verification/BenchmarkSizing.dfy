/**
 The sizing of the equal-weight benchmark of engine/capital_rotation.py (_equal_weight_benchmark):
 the loop of BuySizing with twenty rounds, an even number.

 Main results: an even number of rounds ends affordable if and only if the plain iteration has
 settled by then, or the cash buys less than the tolerance (EvenRoundsAffordableIff); with fractional
 shares it has settled exactly when its last two quantities pay the same fee (SettledIffSameFee); and
 once the fees of two neighbouring iterates are at most a cent apart, one further fee decides for all
 even numbers of rounds (OneCentGapDecides). BenchmarkResidual applies this to the benchmark's loop.
 */
module BenchmarkSizing {
  import opened Common
  import opened BuySizing

  const BENCHMARK_ROUNDS: nat := 20

  // ---------------------------------------------------------------- the plain iteration

  /** The k-th iterate from q, without the early stop. */
  function Iterate(o: Order, q: real, k: nat): real
    requires o.price > 0.0
    decreases k
  {
    if k == 0 then q else Iterate(o, o.Next(q), k - 1)
  }

  lemma {:induction false} IterateNext(o: Order, q: real, k: nat)
    requires o.price > 0.0
    ensures Iterate(o, q, k + 1) == o.Next(Iterate(o, q, k))
    decreases k
  {
    hide Order.Next;
    if k > 0 {
      IterateNext(o, o.Next(q), k - 1);
    }
  }

  lemma {:induction false} IterateTwice(o: Order, q: real, j: nat, k: nat)
    requires o.price > 0.0
    ensures Iterate(o, q, j + k) == Iterate(o, Iterate(o, q, j), k)
    decreases j
  {
    hide Order.Next;
    if j > 0 {
      IterateTwice(o, o.Next(q), j - 1, k);
    }
  }

  lemma {:induction false} FixedPointStays(o: Order, q: real, k: nat)
    requires o.price > 0.0 && o.Next(q) == q
    ensures Iterate(o, q, k) == q
    decreases k
  {
    hide Order.Next;
    if k > 0 {
      FixedPointStays(o, q, k - 1);
    }
  }

  lemma {:induction false} TwoCycle(o: Order, q: real, n: real, k: nat)
    requires o.price > 0.0 && o.Next(q) == n && o.Next(n) == q
    ensures Iterate(o, q, k) == if k % 2 == 0 then q else n
    ensures Iterate(o, n, k) == if k % 2 == 0 then n else q
    decreases k
  {
    hide Order.Next;
    if k > 0 {
      TwoCycle(o, q, n, k - 1);
    }
  }

  /** After k rounds one more changes nothing. */
  predicate Settled(o: Order, q: real, k: nat)
    requires o.price > 0.0
  {
    Iterate(o, q, k + 1) == Iterate(o, q, k)
  }

  // ---------------------------------------------------------------- one upper iterate

  /** An image that is not below what it came from is affordable exactly when it is a fixed point. */
  lemma UpperIterateCoversIff(o: Order, n: real, m: real)
    requires o.Valid() && o.cash >= 0.0 && m == o.Next(n) && n <= m
    ensures o.Covers(m) <==> o.Next(m) == m
  {
    hide StepFee;
    hide Order.Next;
    hide Order.RawNext;
    NextFacts(o, n);
    NextFacts(o, m);
    NextAntitone(o, n, m);
    var raw, next := o.RawNext(m), o.Next(m);
    if next == m {
      LowerIterateCovers(o, m, m);
    }
    if o.Covers(m) {
      CancelValue(m, raw, o.price);
      assert m <= raw;
      WholeBelow(o, m, m);
    }
  }

  lemma WholeBelow(o: Order, m: real, q: real)
    requires o.price > 0.0 && m <= o.RawNext(q) && (!o.fractional ==> m.Floor as real == m)
    ensures m <= o.Next(q)
  {
    hide Order.RawNext;
    FloorMonotone(m, o.RawNext(q));
  }

  /** Equal fees on the last two quantities mean a fixed point, and with fractional shares nothing
      else does. */
  lemma SameFeeIsFixed(o: Order, n: real, m: real)
    requires o.Valid() && o.cash >= 0.0 && m == o.Next(n) && 0.0 <= n <= m
    ensures o.fee(m) == o.fee(n) ==> o.Next(m) == m
    ensures o.fractional && o.Next(m) == m ==> o.fee(m) == o.fee(n)
  {
    hide StepFee;
    hide TradeValue;
    NextFacts(o, n);
    NextFacts(o, m);
    FeeOfNothing(o);
    NextAntitone(o, n, m);
    CancelValue(m, 0.0, o.price);
  }

  // ---------------------------------------------------------------- even numbers of rounds

  /** What the even iterates of the loop keep: in range, image below and second image between; and
      with fractional shares only the start can have the image zero. */
  ghost predicate Upper(o: Order, q: real)
    requires o.price > 0.0
  {
    && 0.0 <= o.Next(q) <= o.Next(o.Next(q)) <= q <= o.Start() && TradeValue(q, o.price) <= o.cash
    && (o.fractional && o.Next(q) == 0.0 ==> q == o.Start())
  }

  lemma StartIsUpper(o: Order)
    requires o.Valid() && o.cash >= 0.0
    ensures Upper(o, o.Start())
  {
    hide StepFee, Order.Next, Order.RawNext, Order.Start;
    var q := o.Start();
    StartAboveImage(o);
    NextFacts(o, q);
    NextAntitone(o, o.Next(q), q);
    UpperIterateInRange(o, o.Next(q));
    QuotientValue(o.cash, o.price);
    StartValue(o);
  }

  lemma StartValue(o: Order)
    requires o.price > 0.0
    ensures TradeValue(o.Start(), o.price) == o.cash
  {
    QuotientValue(o.cash, o.price);
  }

  lemma StartAboveImage(o: Order)
    requires o.Valid() && o.cash >= 0.0
    ensures o.Next(o.Start()) <= o.Start()
  {
    hide StepFee, Order.Next, Order.RawNext, Order.Start, TradeValue;
    var q := o.Start();
    NextFacts(o, q);
    FeeMonotone(o, q, q);
    StartValue(o);
    CancelValue(o.RawNext(q), q, o.price);
  }

  /** The image of nothing is what the cash buys without a fee. */
  lemma NextOfNothing(o: Order)
    requires o.Valid() && o.cash >= 0.0 && o.fractional
    ensures o.Next(0.0) == o.Start()
  {
    hide StepFee, Order.Next, Order.RawNext, Order.Start, TradeValue;
    NextFacts(o, 0.0);
    FeeOfNothing(o);
    StartValue(o);
    CancelValue(o.Next(0.0), o.Start(), o.price);
  }

  lemma NextButOneIsUpper(o: Order, q: real)
    requires o.Valid() && o.cash >= 0.0 && Upper(o, q)
    ensures Upper(o, o.Next(o.Next(q)))
  {
    hide StepFee, Order.Next, Order.RawNext, Order.Start, TradeValue;
    var n := o.Next(q);
    var m := o.Next(n);
    UpperIterateInRange(o, n);
    NextAntitone(o, n, m);
    NextAntitone(o, m, q);
    NextAntitone(o, o.Next(m), m);
    NextAntitone(o, n, o.Next(m));
    if o.fractional {
      NextOfNothing(o);
    }
  }

  /** A stop by the tolerance at an upper iterate is a stop at a fixed point, unless all the cash buys
      less than the tolerance. */
  lemma StopIsFixedPoint(o: Order, q: real)
    requires o.Valid() && o.price <= MAX_PRICE && o.cash >= 0.0 && Upper(o, q) && o.Start() >= QUANTITY_TOLERANCE
    ensures var n := o.Next(q); var m := o.Next(n);
            q - n < QUANTITY_TOLERANCE || m - n < QUANTITY_TOLERANCE ==> m == n
  {
    hide StepFee, Order.Next, Order.RawNext, Order.Start, TradeValue;
    var n := o.Next(q);
    var m := o.Next(n);
    NextFacts(o, q);
    NextFacts(o, n);
    if m - n < QUANTITY_TOLERANCE {
      if !o.fractional {
        var x, y := m.Floor, n.Floor;
        assert (x - y) as real == m - n;
      } else if n > 0.0 {
        CentsApart(o, q, n, m);
      } else {
        NextOfNothing(o);
      }
    }
  }

  /** From an upper iterate, an even number of rounds ends affordable exactly when the plain iteration
      has settled by then. */
  lemma {:induction false} EvenRoundsFrom(o: Order, q: real, rounds: nat)
    requires o.Valid() && o.price <= MAX_PRICE && o.cash >= 0.0 && Upper(o, q) && o.Start() >= QUANTITY_TOLERANCE
    requires rounds > 0 && rounds % 2 == 0
    ensures o.Covers(o.Size(q, rounds)) <==> Settled(o, q, rounds)
    decreases rounds
  {
    hide StepFee, Order.Next, Order.RawNext, Order.Start, Order.Size, Order.Covers, TradeValue;
    var n := o.Next(q);
    var m := o.Next(n);
    SizeStep(o, q, n, rounds);
    SizeStep(o, n, m, rounds - 1);
    SizeStep(o, m, o.Next(m), rounds - 2);
    StopIsFixedPoint(o, q);
    assert Iterate(o, q, rounds) == Iterate(o, m, rounds - 2) by {
      assert Iterate(o, q, rounds) == Iterate(o, n, rounds - 1);
    }
    assert Iterate(o, q, rounds + 1) == Iterate(o, m, rounds - 1) by {
      assert Iterate(o, q, rounds + 1) == Iterate(o, n, rounds);
    }
    if m == n {
      FixedPointStays(o, n, rounds - 1);
      FixedPointStays(o, n, rounds - 2);
      LowerIterateCovers(o, q, n);
    } else if rounds == 2 {
      UpperIterateCoversIff(o, n, m);
      assert Iterate(o, m, 1) == Iterate(o, o.Next(m), 0);
    } else {
      NextButOneIsUpper(o, q);
      EvenRoundsFrom(o, m, rounds - 2);
    }
  }

  // ---------------------------------------------------------------- the exact condition

  /** Less cash than the tolerance buys: the loop stops in its first round and keeps the cash. */
  lemma TinyCashIsKept(o: Order, rounds: nat)
    requires o.Valid() && o.cash >= 0.0 && rounds > 0 && o.Start() < QUANTITY_TOLERANCE
    ensures o.Covers(o.Size(o.Start(), rounds))
  {
    hide StepFee, Order.Next, Order.RawNext, Order.Start, Order.Size, Order.Covers;
    var q := o.Start();
    StartIsUpper(o);
    SizeStep(o, q, o.Next(q), rounds);
    LowerIterateCovers(o, q, o.Next(q));
  }

  /** For every order and every even number of rounds: the result is affordable if and only if the
      plain iteration has settled by then, or the cash buys less than the tolerance. */
  lemma EvenRoundsAffordableIff(o: Order, rounds: nat)
    requires o.Valid() && o.price <= MAX_PRICE && o.cash >= 0.0 && rounds > 0 && rounds % 2 == 0
    ensures o.Covers(o.Size(o.Start(), rounds))
            <==> o.Start() < QUANTITY_TOLERANCE || Settled(o, o.Start(), rounds)
  {
    hide StepFee, Order.Next, Order.RawNext, Order.Start, Order.Size, Order.Covers, Settled;
    StartIsUpper(o);
    if o.Start() < QUANTITY_TOLERANCE {
      TinyCashIsKept(o, rounds);
    } else {
      EvenRoundsFrom(o, o.Start(), rounds);
    }
  }

  lemma {:induction false} EvenIterateIsUpper(o: Order, q: real, k: nat)
    requires o.Valid() && o.cash >= 0.0 && Upper(o, q) && k % 2 == 0
    ensures Upper(o, Iterate(o, q, k))
    decreases k
  {
    hide Upper, StepFee, Order.Next;
    if k > 0 {
      NextButOneIsUpper(o, q);
      EvenIterateIsUpper(o, o.Next(o.Next(q)), k - 2);
      assert Iterate(o, q, k) == Iterate(o, o.Next(q), k - 1);
    }
  }

  /** The last two quantities of the plain iteration pay the same fee. */
  predicate SameLastFee(o: Order, rounds: nat)
    requires o.price > 0.0 && rounds > 0
  {
    o.fee(Iterate(o, o.Start(), rounds)) == o.fee(Iterate(o, o.Start(), rounds - 1))
  }

  /** The plain iteration has settled whenever its last two quantities pay the same fee; with
      fractional shares exactly then. */
  lemma SettledIffSameFee(o: Order, rounds: nat)
    requires o.Valid() && o.cash >= 0.0 && rounds > 0 && rounds % 2 == 0
    ensures SameLastFee(o, rounds) ==> Settled(o, o.Start(), rounds)
    ensures o.fractional ==> (Settled(o, o.Start(), rounds) <==> SameLastFee(o, rounds))
  {
    hide StepFee, Order.Next, Order.RawNext, Order.Start;
    StartIsUpper(o);
    EvenIterateIsUpper(o, o.Start(), rounds - 2);
    var q := Iterate(o, o.Start(), rounds - 2);
    IterateNext(o, o.Start(), rounds - 2);
    IterateNext(o, o.Start(), rounds - 1);
    IterateNext(o, o.Start(), rounds);
    SameFeeIsFixed(o, o.Next(q), o.Next(o.Next(q)));
  }

  /** Where the fees of an even iterate and the next are at most a cent apart, the fee of the one
      after decides: from there on all even numbers of rounds have settled, or none ever does. */
  lemma OneCentGapDecides(o: Order, from: nat, rounds: nat)
    requires o.Valid() && o.price <= MAX_PRICE && o.cash >= 0.0 && o.Start() >= QUANTITY_TOLERANCE
    requires from % 2 == 0 && rounds % 2 == 0 && rounds >= from + 2
    requires o.fee(Iterate(o, o.Start(), from)) - o.fee(Iterate(o, o.Start(), from + 1)) <= 0.01
    ensures o.Covers(o.Size(o.Start(), rounds)) <==> SameLastFee(o, from + 2)
  {
    hide StepFee, Order.Next, Order.RawNext, Order.Start, Order.Size, Order.Covers;
    var q := Iterate(o, o.Start(), from);
    var n := o.Next(q);
    var m := o.Next(n);
    IterateNext(o, o.Start(), from);
    IterateNext(o, o.Start(), from + 1);
    StartIsUpper(o);
    EvenIterateIsUpper(o, o.Start(), from);
    EvenRoundsAffordableIff(o, rounds);
    IterateTwice(o, o.Start(), from + 2, rounds - from - 2);
    IterateTwice(o, o.Start(), from + 2, rounds - from - 1);
    FeeMonotone(o, n, m);
    FeeMonotone(o, m, q);
    if o.fee(m) == o.fee(n) {
      SameFeeIsFixed(o, n, m);
      FixedPointStays(o, m, rounds - from - 2);
      FixedPointStays(o, m, rounds - from - 1);
    } else {
      NextCent(o, n, m, q);
      SameFeeSameNext(o, m, q);
      TwoCycle(o, m, n, rounds - from - 2);
      TwoCycle(o, m, n, rounds - from - 1);
    }
  }

  lemma NextCent(o: Order, n: real, m: real, q: real)
    requires o.Valid() && o.fee(n) < o.fee(m) <= o.fee(q) <= o.fee(n) + 0.01
    ensures o.fee(m) == o.fee(q)
  {
    assert WholeCents(o.fee(n)) && WholeCents(o.fee(m)) && WholeCents(o.fee(q));
    CentStep(o.fee(q), o.fee(m), o.fee(q) - o.fee(m));
  }

  lemma SameFeeSameNext(o: Order, a: real, b: real)
    requires o.price > 0.0 && o.fee(a) == o.fee(b)
    ensures o.Next(a) == o.Next(b)
  {
  }

  /** The same at the start: three fees, known before the loop, decide for every even number. */
  lemma FirstFeesDecide(o: Order, rounds: nat)
    requires o.Valid() && o.price <= MAX_PRICE && o.cash >= 0.0 && o.Start() >= QUANTITY_TOLERANCE
    requires rounds > 0 && rounds % 2 == 0
    requires o.fee(o.Start()) - o.fee(o.Next(o.Start())) <= 0.01
    ensures var n := o.Next(o.Start()); o.Covers(o.Size(o.Start(), rounds)) <==> o.fee(o.Next(n)) == o.fee(n)
  {
    hide StepFee, Order.Next, Order.RawNext, Order.Start, Order.Size, Order.Covers;
    IterateNext(o, o.Start(), 0);
    IterateNext(o, o.Start(), 1);
    OneCentGapDecides(o, 0, rounds);
  }

  lemma OneMoreCent(a: real, b: real)
    requires b <= a <= b + 0.01
    ensures FeeCents(a) <= FeeCents(b) + 1
  {
    hide Ceiling;
    CeilingIsLeast((b - CENT_TOLERANCE) * 100.0, 0);
    CeilingIsLeast((a - CENT_TOLERANCE) * 100.0, FeeCents(b) + 1);
    FeeCentsMonotone(b, a);
  }

  /** Which orders have so small a gap: fractional shares without a fee per share, where the
      commission on the fee itself is at most a cent. */
  lemma SmallCommissionGap(cash: real, price: real, config: Config)
    requires config.Valid() && config.catFeePerShare == 0.0 && config.fractionalShares && price > 0.0 && cash >= 0.0
    requires RateBase(BuyOrder(cash, price, config).fee(BuyOrder(cash, price, config).Start()), config) <= 0.01
    ensures var o := BuyOrder(cash, price, config); o.fee(o.Start()) - o.fee(o.Next(o.Start())) <= 0.01
  {
    hide StepFee, Order.Next, Order.RawNext, Order.Start, TradeValue, BuyFee, BuyFeeCents;
    var o := BuyOrder(cash, price, config);
    var q, n := o.Start(), o.Next(o.Start());
    BuyScheduleIsStepFee(price, config);
    NextFacts(o, q);
    StartValue(o);
    FeeMonotone(o, q, q);
    BuyFeeInCents(q, price, config);
    BuyFeeInCents(n, price, config);
    CancelValue(n, 0.0, price);
    CommissionGap(cash, TradeValue(n, price), q, n, config, o.fee(q));
  }

  function RateBase(value: real, config: Config): real { value * config.commissionRate }

  lemma CommissionGap(cash: real, rest: real, q: real, n: real, config: Config, fee: real)
    requires config.Valid() && config.catFeePerShare == 0.0 && fee >= 0.0 && RateBase(fee, config) <= 0.01
    requires rest == Max(0.0, cash - fee) && cash >= 0.0
    requires n <= 0.0 ==> rest == 0.0
    ensures BuyFeeCents(q, cash, config) <= BuyFeeCents(n, rest, config) + 1
  {
    var r := config.commissionRate;
    var gap := cash - rest;
    MulMonotone(0.0, gap, r);
    MulMonotone(gap, fee, r);
    assert cash * r - rest * r == gap * r;
    OneMoreCent(cash * r, rest * r);
    assert RateCents(cash, r) <= RateCents(rest, r) + 1;
    assert RateCents(q, 0.0) == 0 == RateCents(n, 0.0);
    FeeCentsMonotone(rest * r, rest * r);
    if n <= 0.0 {
      assert RateCents(rest, r) == 0;
    }
  }

  // ---------------------------------------------------------------- orders that fail and that settle late

  /** 1 % commission, one dollar a share, $1.011: rounds alternate between 0.991 and 1.001 shares. */
  const OSCILLATING_FEES: Config := Config(0.01, 0.0, 0.0, 0.0, 0.0, 0.0, true)

  function Oscillating(): Order {
    Order(1.011, 1.0, BuySchedule(1.0, OSCILLATING_FEES), true)
  }

  lemma OscillatingFees()
    ensures BuyFee(1.011, 1.0, OSCILLATING_FEES) == 0.02
    ensures BuyFee(1.001, 1.0, OSCILLATING_FEES) == 0.02
    ensures BuyFee(0.991, 1.0, OSCILLATING_FEES) == 0.01
  {
    assert Ceiling((1.011 * 0.01 - CENT_TOLERANCE) * 100.0) == 2;
    assert Ceiling((1.001 * 0.01 - CENT_TOLERANCE) * 100.0) == 2;
    assert Ceiling((0.991 * 0.01 - CENT_TOLERANCE) * 100.0) == 1;
  }

  lemma OscillatingRounds()
    ensures var o := Oscillating();
            && o.Next(1.011) == 0.991 && o.Next(0.991) == 1.001 && o.Next(1.001) == 0.991
  {
    hide BuyFee;
    OscillatingFees();
  }

  lemma {:induction false} OscillatesForEver(rounds: nat)
    ensures Oscillating().Size(0.991, rounds) == if rounds % 2 == 0 then 0.991 else 1.001
    ensures Oscillating().Size(1.001, rounds) == if rounds % 2 == 0 then 1.001 else 0.991
  {
    hide Order.Next;
    hide Order.RawNext;
    OscillatingRounds();
    if rounds > 0 {
      OscillatesForEver(rounds - 1);
    }
  }

  /** After any even number of rounds (the equal-weight benchmark uses twenty) this order is
      overspent, so the odd count of the strategy's loop is what makes it safe. */
  lemma EvenRoundsOverspend(rounds: nat)
    requires rounds % 2 == 0 && rounds > 0
    ensures var o := Oscillating(); o.Valid() && !o.Covers(o.Size(o.Start(), rounds))
  {
    hide Order.Size;
    hide Order.Next;
    hide Order.RawNext;
    hide BuyFee;
    var o := Oscillating();
    assert o.Start() == 1.011;
    BuyScheduleIsStepFee(1.0, OSCILLATING_FEES);
    OscillatingRounds();
    OscillatesForEver(rounds - 1);
    SizeStep(o, 1.011, 0.991, rounds);
    OscillatingFees();
    assert o.Size(1.011, rounds) == 1.001;
  }

  /** Whole shares can settle with different fees: 5 % commission, one dollar a share, $10.50 buys ten
      shares, though the nine of the round before pay less. */
  const WHOLE_SHARES: Config := Config(0.05, 0.0, 0.0, 0.0, 0.0, 0.0, false)

  lemma WholeSharesFees()
    ensures BuyFee(10.5, 1.0, WHOLE_SHARES) == 0.53
    ensures BuyFee(9.0, 1.0, WHOLE_SHARES) == 0.45
    ensures BuyFee(10.0, 1.0, WHOLE_SHARES) == 0.5
  {
    assert Ceiling((10.5 * 0.05 - CENT_TOLERANCE) * 100.0) == 53;
    assert Ceiling((9.0 * 0.05 - CENT_TOLERANCE) * 100.0) == 45;
    assert Ceiling((10.0 * 0.05 - CENT_TOLERANCE) * 100.0) == 50;
  }

  lemma WholeSharesRounds()
    ensures var o := Order(10.5, 1.0, BuySchedule(1.0, WHOLE_SHARES), false);
            o.Next(10.5) == 9.0 && o.Next(9.0) == 10.0 && o.Next(10.0) == 10.0
  {
    hide BuyFee;
    WholeSharesFees();
  }

  lemma WholeSharesSettleWithDifferentFees()
    ensures var o := Order(10.5, 1.0, BuySchedule(1.0, WHOLE_SHARES), false);
            o.Valid() && Settled(o, o.Start(), 2) && !SameLastFee(o, 2)
  {
    hide BuyFee, StepFee, Order.Next;
    BuyScheduleIsStepFee(1.0, WHOLE_SHARES);
    var o := Order(10.5, 1.0, BuySchedule(1.0, WHOLE_SHARES), false);
    WholeSharesFees();
    WholeSharesRounds();
    assert o.Start() == 10.5;
    IterateNext(o, 10.5, 0);
    IterateNext(o, 10.5, 1);
    IterateNext(o, 10.5, 2);
  }

  // ---------------------------------------------------------------- the benchmark's purchase

  /** The purchase of one benchmark asset and what it adds to the residual: never less than zero
      exactly when twenty rounds settle, or the capital buys less than the tolerance. */
  method BenchmarkResidual(capital: real, price: real, config: Config)
    returns (quantity: real, residual: real)
    requires config.Valid() && price > 0.0 && capital >= 0.0
    ensures var executionPrice := Slip(price, Buy, config);
            && executionPrice > 0.0
            && var o := BuyOrder(capital, executionPrice, config);
               && quantity == o.Size(o.Start(), 20)
               && residual
                  == capital - (TradeValue(quantity, executionPrice) + BuyFee(quantity, executionPrice, config))
               && (executionPrice <= MAX_PRICE ==>
                     (residual >= 0.0 <==> o.Start() < QUANTITY_TOLERANCE || Settled(o, o.Start(), 20)))
  {
    hide Slip, ReferenceFees, Order.Size, Order.Start, StepFee, TradeValue, Settled;
    var executionPrice := Slip(price, Buy, config);
    SlipPositive(price, config);
    var fees;
    quantity, fees := SizeInRounds(capital, executionPrice, config, BENCHMARK_ROUNDS);
    residual := capital - (TradeValue(quantity, executionPrice) + fees.Total());
    BuyScheduleIsStepFee(executionPrice, config);
    ghost var o := BuyOrder(capital, executionPrice, config);
    SizeIsImage(o, o.Start(), BENCHMARK_ROUNDS);
    if executionPrice <= MAX_PRICE {
      EvenRoundsAffordableIff(o, BENCHMARK_ROUNDS);
    }
  }
}
