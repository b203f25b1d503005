/**
 The risk-adjusted compound score: _risk_adjusted_reward, _curve_risk_adjusted_score and
 _simple_policy_growth of engine/capital_rotation.py, the calibration trace of
 engine/research_challengers.py, and the choice of a switch margin.

 Main results: the reward the calibration replay accumulates step by step is the batch score of the
 wealth curve it walks (PolicyGrowth) and the audit trace's score (CalibrationTrace); the score is at
 most the log growth less the drawdown penalty times the largest drawdown (ScoreIsBelowGrowth), and exactly
 the log growth less the two penalties (ScoreDecomposes); the
 chosen margin is the first one with the best score (SelectMargin).

 exp and log are functions of which only the listed laws are used.
 */
module RiskScore {
  import opened Common
  import opened RotationPolicy

  datatype Elementary = Elementary(exp: real -> real, log: real -> real) {
    ghost predicate Valid() {
      && (forall x :: exp(x) > 0.0)
      && (forall x :: log(exp(x)) == x)
    }

    /** Wealth after a period with the given log return. */
    function Grow(wealth: real, logReturn: real): real { wealth * exp(logReturn) }

    /** exp(x + y) == exp(x) * exp(y) */
    ghost predicate Multiplies(x: real, y: real) { exp(x + y) == Grow(exp(x), y) }

    ghost predicate Exponential() { forall x, y :: Multiplies(x, y) }
  }

  datatype Penalties = Penalties(downside: real, drawdown: real)

  function Drawdown(wealth: real, peak: real): real
    requires peak != 0.0
  {
    1.0 - wealth / peak
  }

  lemma ProductSigns(a: real, b: real)
    requires b > 0.0
    ensures a <= 0.0 ==> a * b <= 0.0
    ensures a > 1.0 ==> a * b > b
  {
    if a > 1.0 {
      var d := a - 1.0;
      assert d * b > 0.0;
      assert a * b == d * b + b;
    }
  }

  lemma DrawdownIsFraction(wealth: real, peak: real)
    requires 0.0 < wealth <= peak
    ensures 0.0 <= Drawdown(wealth, peak) < 1.0
    ensures wealth == peak ==> Drawdown(wealth, peak) == 0.0
  {
    var q := wealth / peak;
    assert q * peak == wealth;
    ProductSigns(q, peak);
  }

  lemma RatioOfProduct(wealth: real, factor: real)
    requires wealth > 0.0 && factor > 0.0
    ensures wealth * factor > 0.0 && Ratio(wealth * factor, wealth) == factor
  {
  }

  lemma GrowIsPositive(e: Elementary, wealth: real, logReturn: real)
    requires e.Valid() && wealth > 0.0
    ensures e.Grow(wealth, logReturn) > 0.0
    ensures e.log(Ratio(e.Grow(wealth, logReturn), wealth)) == logReturn
  {
    hide Ratio;
    var factor := e.exp(logReturn);
    RatioOfProduct(wealth, factor);
    assert e.Grow(wealth, logReturn) == wealth * factor;
    assert e.log(factor) == logReturn;
  }

  // ---------------------------------------------------------------- the incremental reward

  /** One period: what it is worth, and the wealth and peak it leads to. */
  datatype Step = Step(reward: real, wealth: real, peak: real)

  function Penalized(logReturn: real, increase: real, c: Penalties): real {
    logReturn - c.downside * Max(0.0, -logReturn) - c.drawdown * increase
  }

  function RiskAdjustedReward(e: Elementary, logReturn: real, wealth: real, peak: real, c: Penalties): Step {
    var wealthAfter := e.Grow(wealth, logReturn);
    var peakAfter := Max(peak, wealthAfter);
    var previous := Max(0.0, Drawdown(wealth, Max(peak, 0.000000000001)));
    var current := Max(0.0, Drawdown(wealthAfter, Max(peakAfter, 0.000000000001)));
    Step(Penalized(logReturn, Max(0.0, current - previous), c), wealthAfter, peakAfter)
  }

  // ---------------------------------------------------------------- the batch score of a curve

  ghost predicate ValidCurve(curve: seq<real>) {
    curve != [] && forall i :: 0 <= i < |curve| ==> curve[i] > 0.0
  }

  /** The running maximum. */
  function CumMax(curve: seq<real>, i: nat): (peak: real)
    requires i < |curve|
    ensures forall j :: 0 <= j <= i ==> curve[j] <= peak
    ensures exists j :: 0 <= j <= i && curve[j] == peak
  {
    if i == 0 then curve[0] else Max(CumMax(curve, i - 1), curve[i])
  }

  function CurveDrawdown(curve: seq<real>, i: nat): (d: real)
    requires ValidCurve(curve) && i < |curve|
    ensures 0.0 <= d < 1.0
  {
    DrawdownIsFraction(curve[i], CumMax(curve, i));
    Drawdown(curve[i], CumMax(curve, i))
  }

  /** The i-th term: the log of the period's ratio, less the penalties. */
  function CurveTerm(e: Elementary, c: Penalties, curve: seq<real>, i: nat): real
    requires ValidCurve(curve) && 0 < i < |curve|
  {
    Penalized(e.log(Ratio(curve[i], curve[i - 1])), Max(0.0, CurveDrawdown(curve, i) - CurveDrawdown(curve, i - 1)), c)
  }

  function CurveTerms(e: Elementary, c: Penalties, curve: seq<real>, n: nat): real
    requires ValidCurve(curve) && n < |curve|
  {
    if n == 0 then 0.0 else CurveTerms(e, c, curve, n - 1) + CurveTerm(e, c, curve, n)
  }

  /** _curve_risk_adjusted_score; a curve of fewer than two points has none. */
  function CurveScore(e: Elementary, c: Penalties, curve: seq<real>): (score: Option<real>)
    requires forall i :: 0 <= i < |curve| ==> curve[i] > 0.0
    ensures score.None? <==> |curve| < 2
  {
    if |curve| < 2 then None else Some(CurveTerms(e, c, curve, |curve| - 1))
  }

  lemma {:induction false} CumMaxOfPrefix(curve: seq<real>, more: seq<real>, i: nat)
    requires i < |curve|
    ensures CumMax(curve + more, i) == CumMax(curve, i)
  {
    if i > 0 {
      CumMaxOfPrefix(curve, more, i - 1);
    }
  }

  lemma {:induction false} TermsOfPrefix(e: Elementary, c: Penalties, curve: seq<real>, more: seq<real>, n: nat)
    requires ValidCurve(curve) && ValidCurve(curve + more) && n < |curve|
    ensures CurveTerms(e, c, curve + more, n) == CurveTerms(e, c, curve, n)
  {
    hide Penalized, Drawdown, CumMax, Ratio;
    if n > 0 {
      TermsOfPrefix(e, c, curve, more, n - 1);
      CumMaxOfPrefix(curve, more, n);
      CumMaxOfPrefix(curve, more, n - 1);
      assert (curve + more)[n] == curve[n] && (curve + more)[n - 1] == curve[n - 1];
    }
  }

  // ---------------------------------------------------------------- the replay of a policy

  /** The wealth curve of a list of log returns, starting at one. */
  function WealthCurve(e: Elementary, returnsSeen: seq<real>): (curve: seq<real>)
    requires e.Valid()
    ensures |curve| == |returnsSeen| + 1 && curve[0] == 1.0 && ValidCurve(curve)
    ensures forall i :: 0 <= i < |returnsSeen| ==> curve[i + 1] == e.Grow(curve[i], returnsSeen[i])
  {
    if returnsSeen == [] then [1.0]
    else
      var last := |returnsSeen| - 1;
      var before := WealthCurve(e, returnsSeen[..last]);
      GrowIsPositive(e, before[last], returnsSeen[last]);
      before + [e.Grow(before[last], returnsSeen[last])]
  }

  /** A step of the incremental reward is the next term of the batch score. */
  lemma RewardIsTerm(e: Elementary, c: Penalties, curve: seq<real>, logReturn: real)
    requires e.Valid() && ValidCurve(curve) && curve[0] == 1.0
    ensures var n := |curve|; var longer := curve + [e.Grow(curve[n - 1], logReturn)];
            && ValidCurve(longer)
            && RiskAdjustedReward(e, logReturn, curve[n - 1], CumMax(curve, n - 1), c)
                 == Step(CurveTerm(e, c, longer, n), longer[n], CumMax(longer, n))
  {
    var n := |curve|;
    var wealth := e.Grow(curve[n - 1], logReturn);
    GrowIsPositive(e, curve[n - 1], logReturn);
    var longer := curve + [wealth];
    CumMaxOfPrefix(curve, [wealth], n - 1);
    assert CumMax(curve, n - 1) >= curve[0];
    assert CumMax(longer, n) == Max(CumMax(curve, n - 1), wealth);
    hide Penalized, CumMax, Ratio;
    StepIsTerm(e, c, curve, longer, n, logReturn);
  }

  lemma StepIsTerm(e: Elementary, c: Penalties, curve: seq<real>, longer: seq<real>, n: nat, logReturn: real)
    requires e.Valid() && ValidCurve(curve) && ValidCurve(longer) && n == |curve|
             && longer == curve + [e.Grow(curve[n - 1], logReturn)]
    requires CumMax(longer, n - 1) == CumMax(curve, n - 1) >= 1.0
    requires CumMax(longer, n) == Max(CumMax(curve, n - 1), longer[n])
    requires e.log(Ratio(longer[n], longer[n - 1])) == logReturn
    ensures RiskAdjustedReward(e, logReturn, curve[n - 1], CumMax(curve, n - 1), c)
              == Step(CurveTerm(e, c, longer, n), longer[n], CumMax(longer, n))
  {
    hide Penalized, CumMax, Drawdown, Ratio, Elementary.Grow;
    assert longer[n - 1] == curve[n - 1];
    assert CurveDrawdown(longer, n) == Drawdown(longer[n], CumMax(longer, n));
    assert CurveDrawdown(longer, n - 1) == Drawdown(curve[n - 1], CumMax(curve, n - 1));
  }

  /** A policy's answer to (date, position, holding): target and score. */
  type Policy = (nat, nat, nat) -> (nat, real)

  /** The log return of one transition: (date, from, to). */
  type Market = (nat, nat, nat) -> real

  /** Position and holding before date n. */
  function PositionAt(policy: Policy, n: nat): Position {
    if n == 0 then Position(0, 0)
    else
      var before := PositionAt(policy, n - 1);
      Next(before, policy(n - 1, before.asset, before.holding).0)
  }

  function ReturnAt(policy: Policy, market: Market, n: nat): real {
    var p := PositionAt(policy, n);
    market(n, p.asset, policy(n, p.asset, p.holding).0)
  }

  /** The log returns of the first n transitions of a replay. */
  function Returns(policy: Policy, market: Market, n: nat): (r: seq<real>)
    ensures |r| == n && forall i :: 0 <= i < n ==> r[i] == ReturnAt(policy, market, i)
  {
    if n == 0 then [] else Returns(policy, market, n - 1) + [ReturnAt(policy, market, n - 1)]
  }

  /** The curve a replay over the given number of dates walks. */
  function ReplayCurve(e: Elementary, policy: Policy, market: Market, dates: nat): (curve: seq<real>)
    requires e.Valid() && dates >= 1
    ensures |curve| == dates && curve[0] == 1.0 && ValidCurve(curve)
  {
    WealthCurve(e, Returns(policy, market, dates - 1))
  }

  /** What the replay is worth: the batch score of its curve, minus infinity below two dates. */
  function ReplayScore(e: Elementary, c: Penalties, policy: Policy, market: Market, dates: nat): Utility
    requires e.Valid()
  {
    if dates < 2 then NegInf
    else Fin(CurveScore(e, c, ReplayCurve(e, policy, market, dates)).value)
  }

  /** One more date extends the curve by one point. */
  lemma ReplayCurveGrows(e: Elementary, policy: Policy, market: Market, n: nat)
    requires e.Valid()
    ensures var curve := ReplayCurve(e, policy, market, n + 1);
            ReplayCurve(e, policy, market, n + 2) == curve + [e.Grow(curve[n], ReturnAt(policy, market, n))]
  {
    hide Elementary.Grow;
    assert Returns(policy, market, n + 1)[..n] == Returns(policy, market, n);
  }

  /** The score and peak after one more date. */
  lemma ReplayStep(e: Elementary, c: Penalties, policy: Policy, market: Market, n: nat)
    requires e.Valid()
    ensures var curve := ReplayCurve(e, policy, market, n + 1);
            var longer := ReplayCurve(e, policy, market, n + 2);
            && RiskAdjustedReward(e, ReturnAt(policy, market, n), curve[n], CumMax(curve, n), c)
                 == Step(CurveTerm(e, c, longer, n + 1), longer[n + 1], CumMax(longer, n + 1))
            && CurveTerms(e, c, longer, n + 1) == CurveTerms(e, c, curve, n) + CurveTerm(e, c, longer, n + 1)
  {
    hide RiskAdjustedReward, CurveTerm, CumMax, ReplayCurve, Elementary.Grow, Returns, ReturnAt;
    var curve := ReplayCurve(e, policy, market, n + 1);
    var longer := ReplayCurve(e, policy, market, n + 2);
    ReplayCurveGrows(e, policy, market, n);
    RewardIsTerm(e, c, curve, ReturnAt(policy, market, n));
    TermsOfPrefix(e, c, curve, [longer[n + 1]], n);
    assert longer == curve + [longer[n + 1]];
  }

  /** _simple_policy_growth: the incremental replay computes the batch score of its curve. */
  method PolicyGrowth(e: Elementary, c: Penalties, policy: Policy, market: Market, dates: nat) returns (growth: Utility)
    requires e.Valid()
    ensures growth == ReplayScore(e, c, policy, market, dates)
  {
    hide RiskAdjustedReward, CurveTerm, CurveTerms, CumMax, ReplayCurve, Elementary.Grow;
    if dates < 2 {
      return NegInf;
    }
    var wealth, peak, utility := 1.0, 1.0, 0.0;
    var position, holding := 0, 0;
    FirstPoint(e, c, policy, market);
    for i := 0 to dates - 1
      invariant Position(position, holding) == PositionAt(policy, i)
      invariant wealth == ReplayCurve(e, policy, market, i + 1)[i]
      invariant peak == CumMax(ReplayCurve(e, policy, market, i + 1), i)
      invariant utility == CurveTerms(e, c, ReplayCurve(e, policy, market, i + 1), i)
    {
      var action := policy(i, position, holding).0;
      var logReturn := market(i, position, action);
      ReplayStep(e, c, policy, market, i);
      var step := RiskAdjustedReward(e, logReturn, wealth, peak, c);
      wealth, peak := step.wealth, step.peak;
      utility := utility + step.reward;
      if action == position {
        holding := if action > 0 then holding + 1 else 0;
      } else {
        position := action;
        holding := if action > 0 then 1 else 0;
      }
    }
    return Fin(utility);
  }

  lemma FirstPoint(e: Elementary, c: Penalties, policy: Policy, market: Market)
    requires e.Valid()
    ensures var curve := ReplayCurve(e, policy, market, 1);
            curve[0] == 1.0 && CumMax(curve, 0) == 1.0 && CurveTerms(e, c, curve, 0) == 0.0
  {
  }

  // ---------------------------------------------------------------- the audit trace

  datatype TraceRow = TraceRow(step: nat, fromPosition: nat, toPosition: nat, holdingBefore: nat, policyScore: real,
    logReturn: real, reward: real, cumulative: real, wealthBefore: real, wealthAfter: real,
    peakBefore: real, peakAfter: real, changed: bool)

  /** Row i of a trace: the i-th step of the replay, with the running totals of the batch score. */
  function TraceAt(e: Elementary, c: Penalties, policy: Policy, market: Market, i: nat): TraceRow
    requires e.Valid()
  {
    var p := PositionAt(policy, i);
    var (action, policyScore) := policy(i, p.asset, p.holding);
    var curve, longer := ReplayCurve(e, policy, market, i + 1), ReplayCurve(e, policy, market, i + 2);
    TraceRow(i, p.asset, action, p.holding, policyScore,
             ReturnAt(policy, market, i), CurveTerm(e, c, longer, i + 1), CurveTerms(e, c, longer, i + 1),
             curve[i], longer[i + 1], CumMax(curve, i), CumMax(longer, i + 1), action != p.asset)
  }

  /** _switch_margin_calibration_trace: the audited score is the selection score. */
  method CalibrationTrace(e: Elementary, c: Penalties, policy: Policy, market: Market, dates: nat)
    returns (score: Utility, rows: seq<TraceRow>)
    requires e.Valid()
    ensures score == ReplayScore(e, c, policy, market, dates)
    ensures |rows| == if dates < 2 then 0 else dates - 1
    ensures forall i :: 0 <= i < |rows| ==> rows[i] == TraceAt(e, c, policy, market, i)
  {
    hide RiskAdjustedReward, CurveTerm, CurveTerms, CumMax, ReplayCurve, Elementary.Grow;
    rows := [];
    if dates < 2 {
      return NegInf, rows;
    }
    var wealth, peak, cumulative := 1.0, 1.0, 0.0;
    var position, holding := 0, 0;
    FirstPoint(e, c, policy, market);
    for i := 0 to dates - 1
      invariant |rows| == i && forall k :: 0 <= k < i ==> rows[k] == TraceAt(e, c, policy, market, k)
      invariant Position(position, holding) == PositionAt(policy, i)
      invariant wealth == ReplayCurve(e, policy, market, i + 1)[i]
      invariant peak == CumMax(ReplayCurve(e, policy, market, i + 1), i)
      invariant cumulative == CurveTerms(e, c, ReplayCurve(e, policy, market, i + 1), i)
    {
      var (action, policyScore) := policy(i, position, holding);
      var logReturn := market(i, position, action);
      ReplayStep(e, c, policy, market, i);
      var step := RiskAdjustedReward(e, logReturn, wealth, peak, c);
      cumulative := cumulative + step.reward;
      var row := TraceRow(i, position, action, holding, policyScore, logReturn, step.reward, cumulative,
                          wealth, step.wealth, peak, step.peak, action != position);
      assert row == TraceAt(e, c, policy, market, i);
      rows := rows + [row];
      wealth, peak := step.wealth, step.peak;
      if action == position {
        holding := if action > 0 then holding + 1 else 0;
      } else {
        position := action;
        holding := if action > 0 then 1 else 0;
      }
    }
    return Fin(cumulative), rows;
  }

  // ---------------------------------------------------------------- what the score is worth

  function MaxDrawdown(curve: seq<real>, n: nat): (d: real)
    requires ValidCurve(curve) && n < |curve|
    ensures forall i :: 0 <= i <= n ==> CurveDrawdown(curve, i) <= d
    ensures exists i :: 0 <= i <= n && CurveDrawdown(curve, i) == d
  {
    if n == 0 then CurveDrawdown(curve, 0) else Max(MaxDrawdown(curve, n - 1), CurveDrawdown(curve, n))
  }

  /** The sum of the drawdown increases. */
  function Increases(curve: seq<real>, n: nat): real
    requires ValidCurve(curve) && n < |curve|
  {
    if n == 0 then 0.0 else Increases(curve, n - 1) + Max(0.0, CurveDrawdown(curve, n) - CurveDrawdown(curve, n - 1))
  }

  lemma FirstDrawdown(curve: seq<real>)
    requires ValidCurve(curve)
    ensures CurveDrawdown(curve, 0) == 0.0
  {
    hide Drawdown;
    DrawdownIsFraction(curve[0], CumMax(curve, 0));
  }

  lemma {:induction false} IncreasesCoverDrawdown(curve: seq<real>, n: nat)
    requires ValidCurve(curve) && n < |curve|
    ensures Increases(curve, n) >= MaxDrawdown(curve, n) >= CurveDrawdown(curve, n)
  {
    hide CurveDrawdown;
    if n == 0 {
      FirstDrawdown(curve);
    } else {
      IncreasesCoverDrawdown(curve, n - 1);
    }
  }

  lemma PenalizedIsBelow(logReturn: real, increase: real, c: Penalties)
    requires c.downside >= 0.0
    ensures Penalized(logReturn, increase, c) <= logReturn - c.drawdown * increase
    ensures logReturn >= 0.0 || c.downside == 0.0 ==>
              Penalized(logReturn, increase, c) == logReturn - c.drawdown * increase
  {
    var loss := Max(0.0, -logReturn);
    assert c.downside * loss >= 0.0;
  }

  /** One term loses at least the penalty on its drawdown increase. */
  lemma TermIsBelow(e: Elementary, c: Penalties, logReturns: seq<real>, n: nat)
    requires e.Valid() && c.downside >= 0.0 && 0 < n <= |logReturns|
    ensures var curve := WealthCurve(e, logReturns);
            CurveTerm(e, c, curve, n)
              <= logReturns[n - 1] - Charge(c, Max(0.0, CurveDrawdown(curve, n) - CurveDrawdown(curve, n - 1)))
  {
    hide CurveDrawdown, Elementary.Grow, Penalized, WealthCurve, Ratio;
    var curve := WealthCurve(e, logReturns);
    var r := logReturns[n - 1];
    GrowIsPositive(e, curve[n - 1], r);
    assert curve[(n - 1) + 1] == e.Grow(curve[n - 1], r);
    PenalizedIsBelow(r, Max(0.0, CurveDrawdown(curve, n) - CurveDrawdown(curve, n - 1)), c);
  }

  /** The drawdown penalty on an increase. */
  function Charge(c: Penalties, increase: real): real { c.drawdown * increase }

  lemma ChargeAdds(c: Penalties, a: real, b: real)
    ensures Charge(c, a + b) == Charge(c, a) + Charge(c, b)
    ensures Charge(c, 0.0) == 0.0
    ensures c.drawdown >= 0.0 && b >= 0.0 ==> Charge(c, b) >= 0.0
  {
  }

  /** The terms lose at least the penalty on all drawdown increases. */
  lemma {:induction false} TermsAreBelow(e: Elementary, c: Penalties, logReturns: seq<real>, n: nat)
    requires e.Valid() && c.downside >= 0.0 && n <= |logReturns|
    ensures var curve := WealthCurve(e, logReturns);
            CurveTerms(e, c, curve, n) <= Sum(logReturns[..n]) - Charge(c, Increases(curve, n))
  {
    hide CurveDrawdown, CurveTerm, WealthCurve, Charge;
    var curve := WealthCurve(e, logReturns);
    if n == 0 {
      ChargeAdds(c, 0.0, 0.0);
    } else {
      TermsAreBelow(e, c, logReturns, n - 1);
      TermIsBelow(e, c, logReturns, n);
      ChargeAdds(c, Increases(curve, n - 1), Max(0.0, CurveDrawdown(curve, n) - CurveDrawdown(curve, n - 1)));
      SumAppend(logReturns[..n - 1], [logReturns[n - 1]]);
      assert logReturns[..n] == logReturns[..n - 1] + [logReturns[n - 1]];
    }
  }

  lemma FixedBySquare(x: real)
    requires x > 0.0 && x * x == x
    ensures x == 1.0
  {
    var d := x - 1.0;
    assert d * x == 0.0;
  }

  lemma ExpOfZero(e: Elementary)
    requires e.Valid() && e.Exponential()
    ensures e.exp(0.0) == 1.0
  {
    var one := e.exp(0.0);
    assert e.Multiplies(0.0, 0.0) && 0.0 + 0.0 == 0.0;
    assert e.Grow(one, 0.0) == one * one;
    FixedBySquare(one);
  }

  /** The final wealth is the exponential of the summed log returns. */
  lemma {:induction false} WealthIsExpOfSum(e: Elementary, logReturns: seq<real>)
    requires e.Valid() && e.Exponential()
    ensures WealthCurve(e, logReturns)[|logReturns|] == e.exp(Sum(logReturns))
  {
    hide Elementary.Grow;
    if logReturns == [] {
      ExpOfZero(e);
    } else {
      var last := |logReturns| - 1;
      WealthIsExpOfSum(e, logReturns[..last]);
      SumAppend(logReturns[..last], [logReturns[last]]);
      assert logReturns == logReturns[..last] + [logReturns[last]];
      assert e.Multiplies(Sum(logReturns[..last]), logReturns[last]);
    }
  }

  /** The score is at most the log growth less the penalty on the largest drawdown. */
  lemma ScoreIsBelowGrowth(e: Elementary, c: Penalties, logReturns: seq<real>)
    requires e.Valid() && e.Exponential() && c.downside >= 0.0 && c.drawdown >= 0.0
    ensures var n := |logReturns|; var curve := WealthCurve(e, logReturns);
            CurveTerms(e, c, curve, n) <= e.log(curve[n]) - Charge(c, MaxDrawdown(curve, n))
  {
    hide WealthCurve, CurveTerms, Increases, MaxDrawdown, Elementary.Exponential, Charge, Sum, CurveDrawdown;
    var n := |logReturns|;
    var curve := WealthCurve(e, logReturns);
    TermsAreBelow(e, c, logReturns, n);
    WealthIsExpOfSum(e, logReturns);
    assert logReturns[..n] == logReturns;
    IncreasesCoverDrawdown(curve, n);
    ChargeAdds(c, MaxDrawdown(curve, n), Increases(curve, n) - MaxDrawdown(curve, n));
  }

  /** The sum of the losses. */
  function Losses(logReturns: seq<real>): real {
    if logReturns == [] then 0.0
    else Losses(logReturns[..|logReturns| - 1]) + Max(0.0, -logReturns[|logReturns| - 1])
  }

  /** The downside penalty on a loss. */
  function DownsideCharge(c: Penalties, loss: real): real { c.downside * loss }

  lemma DownsideAdds(c: Penalties, a: real, b: real)
    ensures DownsideCharge(c, a + b) == DownsideCharge(c, a) + DownsideCharge(c, b)
    ensures DownsideCharge(c, 0.0) == 0.0
  {
  }

  lemma PenalizedIs(logReturn: real, increase: real, c: Penalties)
    ensures Penalized(logReturn, increase, c)
            == logReturn - DownsideCharge(c, Max(0.0, -logReturn)) - Charge(c, increase)
  {
  }

  /** A drawdown is the fall from the running peak as a share of it. */
  lemma DrawdownIsFall(curve: seq<real>, i: nat)
    requires ValidCurve(curve) && i < |curve|
    ensures CumMax(curve, i) > 0.0 && 1.0 - CurveDrawdown(curve, i) == Ratio(curve[i], CumMax(curve, i))
  {
    hide CumMax;
    assert CumMax(curve, i) >= curve[i] > 0.0;
  }

  lemma {:induction false} TermsAre(e: Elementary, c: Penalties, logReturns: seq<real>, n: nat)
    requires e.Valid() && n <= |logReturns|
    ensures var curve := WealthCurve(e, logReturns);
            CurveTerms(e, c, curve, n)
            == Sum(logReturns[..n]) - DownsideCharge(c, Losses(logReturns[..n])) - Charge(c, Increases(curve, n))
  {
    hide CurveDrawdown, WealthCurve, Charge, DownsideCharge, Penalized, Elementary.Grow, Ratio;
    var curve := WealthCurve(e, logReturns);
    ChargeAdds(c, 0.0, 0.0);
    DownsideAdds(c, 0.0, 0.0);
    if n > 0 {
      var r := logReturns[n - 1];
      var increase := Max(0.0, CurveDrawdown(curve, n) - CurveDrawdown(curve, n - 1));
      TermsAre(e, c, logReturns, n - 1);
      GrowIsPositive(e, curve[n - 1], r);
      assert curve[(n - 1) + 1] == e.Grow(curve[n - 1], r);
      PenalizedIs(r, increase, c);
      ChargeAdds(c, Increases(curve, n - 1), increase);
      DownsideAdds(c, Losses(logReturns[..n - 1]), Max(0.0, -r));
      SumAppend(logReturns[..n - 1], [r]);
      assert logReturns[..n] == logReturns[..n - 1] + [r];
      assert logReturns[..n][..n - 1] == logReturns[..n - 1];
    }
  }

  /** The score exactly: the log of the final wealth, less the downside penalty times the summed losses, less
      the drawdown penalty times the summed drawdown increases. */
  lemma ScoreDecomposes(e: Elementary, c: Penalties, logReturns: seq<real>)
    requires e.Valid() && e.Exponential() && logReturns != []
    ensures var n := |logReturns|; var curve := WealthCurve(e, logReturns);
            CurveScore(e, c, curve)
            == Some(e.log(curve[n]) - DownsideCharge(c, Losses(logReturns)) - Charge(c, Increases(curve, n)))
  {
    hide WealthCurve, CurveTerms, Increases, Elementary.Exponential, Charge, DownsideCharge, Sum, CurveDrawdown;
    TermsAre(e, c, logReturns, |logReturns|);
    WealthIsExpOfSum(e, logReturns);
    assert logReturns[..|logReturns|] == logReturns;
  }

  /** The audit trace is a replay: it starts in cash with wealth one, takes the policy's answers, earns the
      market's returns, and every row goes on where the one before it ended. */
  lemma TraceIsReplay(e: Elementary, c: Penalties, policy: Policy, market: Market, i: nat)
    requires e.Valid()
    ensures var first := TraceAt(e, c, policy, market, 0);
            first.fromPosition == 0 && first.holdingBefore == 0 && first.wealthBefore == 1.0 && first.peakBefore == 1.0
            && first.cumulative == first.reward
    ensures var row, next := TraceAt(e, c, policy, market, i), TraceAt(e, c, policy, market, i + 1);
            && (row.toPosition, row.policyScore) == policy(i, row.fromPosition, row.holdingBefore)
            && row.logReturn == market(i, row.fromPosition, row.toPosition)
            && row.wealthAfter == row.wealthBefore * e.exp(row.logReturn)
            && row.peakAfter == Max(row.peakBefore, row.wealthAfter)
            && next.fromPosition == row.toPosition
            && next.holdingBefore == (if row.toPosition == 0 then 0
                                      else if row.toPosition == row.fromPosition then row.holdingBefore + 1 else 1)
            && next.wealthBefore == row.wealthAfter && next.peakBefore == row.peakAfter
            && next.cumulative == row.cumulative + next.reward
  {
    hide ReplayCurve, CurveTerm, CurveTerms, CumMax, RiskAdjustedReward, Elementary.Grow;
    FirstPoint(e, c, policy, market);
    ReplayStep(e, c, policy, market, 0);
    ReplayStep(e, c, policy, market, i);
    ReplayStep(e, c, policy, market, i + 1);
    RewardCarries(e, c, policy, market, i);
  }

  lemma RewardCarries(e: Elementary, c: Penalties, policy: Policy, market: Market, i: nat)
    requires e.Valid()
    ensures var curve, longer := ReplayCurve(e, policy, market, i + 1), ReplayCurve(e, policy, market, i + 2);
            && longer[i + 1] == curve[i] * e.exp(ReturnAt(policy, market, i))
            && CumMax(longer, i + 1) == Max(CumMax(curve, i), longer[i + 1])
  {
    hide ReplayCurve, CurveTerm, CumMax, ReturnAt;
    ReplayStep(e, c, policy, market, i);
  }

  // ---------------------------------------------------------------- the choice of a margin

  datatype SelectError = NoCandidates

  /** The replay score of the policy with a margin. */
  function MarginScore(e: Elementary, c: Penalties, policyFor: real -> Policy, market: Market, dates: nat,
                       margin: real): Utility
    requires e.Valid()
  {
    ReplayScore(e, c, policyFor(margin), market, dates)
  }

  function MarginScores(e: Elementary, c: Penalties, policyFor: real -> Policy, market: Market, dates: nat,
                        candidates: seq<real>): (scores: seq<Utility>)
    requires e.Valid()
    ensures |scores| == |candidates|
    ensures forall i :: 0 <= i < |scores| ==> scores[i] == MarginScore(e, c, policyFor, market, dates, candidates[i])
  {
    if candidates == [] then []
    else
      [MarginScore(e, c, policyFor, market, dates, candidates[0])]
      + MarginScores(e, c, policyFor, market, dates, candidates[1..])
  }

  /** The candidate loop of the live signal and of the research run: the first margin with the best
      replay score. */
  method SelectMargin(e: Elementary, c: Penalties, candidates: seq<real>, policyFor: real -> Policy, market: Market,
                      dates: nat)
    returns (best: Result<real, SelectError>)
    requires e.Valid()
    ensures best.Err? <==> candidates == []
    ensures best.Ok? ==> best.value == candidates[ArgMax(MarginScores(e, c, policyFor, market, dates, candidates))]
  {
    hide MarginScores, ArgMax, ReplayScore;
    if candidates == [] {
      return Err(NoCandidates);
    }
    ghost var scores := MarginScores(e, c, policyFor, market, dates, candidates);
    var bestCandidate, bestScore := candidates[0], NegInf;
    ghost var at := 0;
    for i := 0 to |candidates|
      invariant at < |candidates| && candidates[at] == bestCandidate
      invariant if bestScore == NegInf then at == 0 else bestScore == scores[at]
      invariant forall k :: 0 <= k < i ==> AtLeast(bestScore, scores[k])
      invariant forall k :: 0 <= k < at ==> !AtLeast(scores[k], bestScore)
    {
      var s := PolicyGrowth(e, c, policyFor(candidates[i]), market, dates);
      assert s == scores[i];
      if !AtLeast(bestScore, s) {
        bestScore, bestCandidate := s, candidates[i];
        at := i;
      }
    }
    FirstBest(scores, at);
    return Ok(bestCandidate);
  }

  lemma FirstBest(scores: seq<Utility>, at: nat)
    requires at < |scores| && forall k :: 0 <= k < |scores| ==> AtLeast(scores[at], scores[k])
    requires forall k :: 0 <= k < at ==> !AtLeast(scores[k], scores[at])
    ensures at == ArgMax(scores)
  {
    hide ArgMax;
    var m := ArgMax(scores);
    assert AtLeast(scores[at], scores[m]) && AtLeast(scores[m], scores[at]);
  }
}
