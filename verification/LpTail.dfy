/**
 The CVaR rows of LpEncoding are exact, for every confidence and every number of scenarios: the least
 CVaR variable of all allowed points with given weights is the larger of zero and the mean loss of the
 tail (CvarIsLeast), and it is attained (CvarIsAttained). A tail of T scenarios is the m worst ones for
 m = T rounded up, the least of them counted only for the part of it that lies in the tail; for a whole
 T that is the mean of the T worst scenarios (WholeTail).
 */
module LpTail {
  import opened Common
  import opened Linear
  import opened LpEncoding
  import opened LpProperties

  // ---------------------------------------------------------------- the worst scenarios

  /** Scenario k is selected, no selected one loses less and no other one loses more. */
  ghost predicate LeastOfWorst(losses: seq<real>, mask: seq<bool>, k: nat)
    requires |losses| == |mask|
  {
    && k < |mask| && mask[k]
    && forall i :: 0 <= i < |mask| ==> if mask[i] then losses[i] >= losses[k] else losses[i] <= losses[k]
  }

  lemma {:induction false} SelectOne(mask: seq<bool>, k: nat)
    requires k < |mask| && !mask[k]
    ensures CountSelected(mask[k := true]) == CountSelected(mask) + 1
  {
    if k > 0 {
      SelectOne(mask[1..], k - 1);
      assert mask[k := true][1..] == mask[1..][k - 1 := true];
    } else {
      assert mask[k := true][1..] == mask[1..];
    }
  }

  lemma {:induction false} SelectedAll(mask: seq<bool>)
    requires forall i :: 0 <= i < |mask| ==> mask[i]
    ensures CountSelected(mask) == |mask|
  {
    if mask != [] {
      SelectedAll(mask[1..]);
    }
  }

  lemma {:induction false} SelectedNone(n: nat) returns (mask: seq<bool>)
    ensures |mask| == n && CountSelected(mask) == 0 && forall i :: 0 <= i < n ==> !mask[i]
  {
    if n == 0 {
      mask := [];
    } else {
      var rest := SelectedNone(n - 1);
      mask := [false] + rest;
      assert mask[1..] == rest;
    }
  }

  /** The largest loss outside. */
  lemma {:induction false} LargestOutside(losses: seq<real>, mask: seq<bool>, n: nat) returns (k: nat)
    requires |losses| == |mask| && n <= |mask| && exists i :: 0 <= i < n && !mask[i]
    ensures k < n && !mask[k] && forall j :: 0 <= j < n && !mask[j] ==> losses[j] <= losses[k]
  {
    if exists i :: 0 <= i < n - 1 && !mask[i] {
      k := LargestOutside(losses, mask, n - 1);
      if !mask[n - 1] && losses[n - 1] > losses[k] {
        k := n - 1;
      }
    } else {
      k := n - 1;
    }
  }

  /** There is a set of m worst scenarios, and scenario k is the least of them. */
  lemma {:induction false} WorstOf(losses: seq<real>, m: nat) returns (mask: seq<bool>, k: nat)
    requires 1 <= m <= |losses|
    ensures |mask| == |losses| && CountSelected(mask) == m && LeastOfWorst(losses, mask, k)
    decreases m
  {
    if m == 1 {
      mask := SelectedNone(|losses|);
      assert !mask[0];
    } else {
      mask, k := WorstOf(losses, m - 1);
      if forall i :: 0 <= i < |mask| ==> mask[i] {
        SelectedAll(mask);
      }
    }
    k := LargestOutside(losses, mask, |mask|);
    SelectOne(mask, k);
    mask := mask[k := true];
  }

  // ---------------------------------------------------------------- the attaining point

  function Losses(p: Inputs, t: Point, n: nat): (losses: seq<real>)
    requires p.Valid() && Shaped(p, t) && n <= p.Scenarios()
    ensures |losses| == n && forall s :: 0 <= s < n ==> losses[s] == Loss(p, t, s)
  {
    if n == 0 then [] else Losses(p, t, n - 1) + [Loss(p, t, n - 1)]
  }

  /** What each scenario loses beyond the level, for the selected ones. */
  function Beyond(p: Inputs, t: Point, mask: seq<bool>, level: real, from: nat): (slack: seq<real>)
    requires p.Valid() && Shaped(p, t) && from + |mask| == p.Scenarios()
    ensures |slack| == |mask|
    ensures forall i :: 0 <= i < |mask| ==> slack[i] == if mask[i] then Loss(p, t, from + i) - level else 0.0
    decreases |mask|
  {
    if mask == [] then []
    else [if mask[0] then Loss(p, t, from) - level else 0.0] + Beyond(p, t, mask[1..], level, from + 1)
  }

  lemma {:induction false} SumBeyond(p: Inputs, t: Point, mask: seq<bool>, level: real, from: nat)
    requires p.Valid() && Shaped(p, t) && from + |mask| == p.Scenarios()
    ensures Sum(Beyond(p, t, mask, level, from))
            == SelectedLoss(p, t, mask, from) - Times(CountSelected(mask) as real, level)
    decreases |mask|
  {
    hide Times, Loss;
    if mask == [] {
      TimesUnits(level);
    } else {
      SumBeyond(p, t, mask[1..], level, from + 1);
      assert Beyond(p, t, mask, level, from)[1..] == Beyond(p, t, mask[1..], level, from + 1);
      TimesDistributes(level, 1.0, CountSelected(mask[1..]) as real);
      TimesUnits(level);
    }
  }

  /** The same weights with the level as alpha, the losses beyond it as slacks, and their tail mean. */
  function Tail(p: Inputs, t: Point, mask: seq<bool>, level: real, cvar: real): Point
    requires p.Valid() && Shaped(p, t) && |mask| == p.Scenarios()
  {
    t.(alpha := level, slack := Beyond(p, t, mask, level, 0), cvar := cvar, penalty := Quadratic(p, cvar))
  }

  lemma TailIsAllowed(p: Inputs, t: Point, mask: seq<bool>, level: real, cvar: real)
    requires p.Valid() && p.curve >= 0.0 && Allowed(p, t) && |mask| == p.Scenarios() && cvar >= 0.0
    requires forall s :: 0 <= s < |mask| ==> if mask[s] then Loss(p, t, s) >= level else Loss(p, t, s) <= level
    requires level + Times(p.TailRate(), Sum(Beyond(p, t, mask, level, 0))) <= cvar
    ensures Allowed(p, Tail(p, t, mask, level, cvar))
  {
    hide Times, Dot, Loss, Inputs.TailRate, Inputs.Slope, Inputs.Offset, Quadratic, TangentHolds;
    var u := Tail(p, t, mask, level, cvar);
    forall s | 0 <= s < p.Scenarios()
      ensures ScenarioHolds(p, u, s) && u.slack[s] >= 0.0
    {
      SameLoss(p, t, u, s);
    }
    TangentsAreBelow(p, u);
    QuadraticNonNegative(p, cvar);
    forall l | 0 <= l < |p.links|
      ensures LinkHolds(p, u, l)
    {
      assert LinkHolds(p, t, l);
    }
    forall i | 0 <= i <= p.Assets()
      ensures TurnoverHolds(p, u, i)
    {
      assert TurnoverHolds(p, t, i);
    }
  }

  lemma SameLoss(p: Inputs, t: Point, u: Point, s: nat)
    requires p.Valid() && Shaped(p, t) && Shaped(p, u) && u.weights == t.weights && s < p.Scenarios()
    ensures Loss(p, u, s) == Loss(p, t, s)
  {
    hide Dot;
  }

  lemma QuadraticNonNegative(p: Inputs, cvar: real)
    requires p.riskReference > 0.0 && p.curve >= 0.0
    ensures Quadratic(p, cvar) >= 0.0
  {
    var u := cvar / p.riskReference;
    CurvedMonotone(p.curve, 0.0, u);
  }

  lemma {:induction false} SameSelectedLoss(p: Inputs, t: Point, u: Point, mask: seq<bool>, from: nat)
    requires p.Valid() && Shaped(p, t) && Shaped(p, u) && u.weights == t.weights && from + |mask| == p.Scenarios()
    ensures SelectedLoss(p, u, mask, from) == SelectedLoss(p, t, mask, from)
    decreases |mask|
  {
    hide Loss;
    if mask != [] {
      SameLoss(p, t, u, from);
      SameSelectedLoss(p, t, u, mask[1..], from + 1);
    }
  }

  // ---------------------------------------------------------------- the tail

  /** The tail rounded up. */
  function TailCount(p: Inputs): (m: nat)
    requires p.confidence >= 0.0 && p.Scenarios() >= 1
    ensures 1 <= m <= p.Scenarios() && m as real - 1.0 < p.TailSize() <= m as real
  {
    TailIsWithin(p.confidence, p.Scenarios() as real);
    -(-p.TailSize()).Floor
  }

  lemma TailIsWithin(confidence: real, n: real)
    requires confidence >= 0.0 && n >= 1.0
    ensures (1.0 - confidence) * n <= n
  {
    assert confidence * n >= 0.0;
    assert (1.0 - confidence) * n == n - confidence * n;
  }

  /** The loss of the tail: that of the selected scenarios, less the part of scenario k by which they
      are more than the tail. */
  function TailLoss(p: Inputs, t: Point, mask: seq<bool>, k: nat): real
    requires p.Valid() && Shaped(p, t) && |mask| == p.Scenarios() && k < |mask|
  {
    SelectedLoss(p, t, mask, 0) - Times(CountSelected(mask) as real - p.TailSize(), Loss(p, t, k))
  }

  /** Scenario k is the least of the worst scenarios that reach the size of the tail. */
  ghost predicate IsTail(p: Inputs, t: Point, mask: seq<bool>, k: nat)
    requires p.Valid() && Shaped(p, t)
  {
    && |mask| == p.Scenarios() && LeastOfWorst(Losses(p, t, p.Scenarios()), mask, k)
    && CountSelected(mask) as real - 1.0 < p.TailSize() <= CountSelected(mask) as real
  }

  /** The CVaR the rows leave for a tail. */
  function TailCvar(p: Inputs, t: Point, mask: seq<bool>, k: nat): real
    requires p.Valid() && Shaped(p, t) && |mask| == p.Scenarios() && k < |mask|
  {
    Max(0.0, Times(p.TailRate(), TailLoss(p, t, mask, k)))
  }

  /** From rate * size = 1: what the CVaR row asks is the mean of the tail. */
  lemma MeanOfTail(rate: real, size: real, total: real, count: real, level: real)
    requires Times(rate, size) == 1.0
    ensures level + Times(rate, total - Times(count, level)) == Times(rate, total - Times(count - size, level))
  {
    assert Times(rate, Times(size, level)) == Times(Times(rate, size), level);
    TimesUnits(level);
    TimesDistributes(level, count, -size);
    TimesDistributes(level, size, 0.0);
    TimesDistributes(rate, total - Times(count, level), Times(size, level));
  }

  /** With the weights of any allowed point an allowed point has the mean of the tail, or zero if the
      tail gains, as its CVaR variable. */
  lemma CvarIsAttained(p: Inputs, t: Point) returns (u: Point, mask: seq<bool>, k: nat)
    requires p.Valid() && p.curve >= 0.0 && p.confidence >= 0.0 && p.Scenarios() >= 1 && Allowed(p, t)
    ensures IsTail(p, t, mask, k)
    ensures Allowed(p, u) && u.weights == t.weights && u.cash == t.cash && u.turnover == t.turnover
    ensures u.cvar == TailCvar(p, t, mask, k)
  {
    hide Times, Loss, Allowed, Inputs.TailRate, Inputs.TailSize, Quadratic, Beyond;
    assert Shaped(p, t) by { AllowedIsShaped(p, t); }
    mask, k := WorstOf(Losses(p, t, p.Scenarios()), TailCount(p));
    var level, count := Loss(p, t, k), CountSelected(mask) as real;
    TailRateInverse(p);
    SumBeyond(p, t, mask, level, 0);
    MeanOfTail(p.TailRate(), p.TailSize(), SelectedLoss(p, t, mask, 0), count, level);
    TailIsAllowed(p, t, mask, level, TailCvar(p, t, mask, k));
    u := Tail(p, t, mask, level, TailCvar(p, t, mask, k));
  }

  lemma AllowedIsShaped(p: Inputs, t: Point)
    requires p.Valid() && Allowed(p, t)
    ensures Shaped(p, t)
  {
  }

  // ---------------------------------------------------------------- and no less

  lemma {:induction false} SelectedLossWithout(p: Inputs, t: Point, mask: seq<bool>, from: nat, k: nat)
    requires p.Valid() && Shaped(p, t) && from + |mask| == p.Scenarios() && k < |mask| && mask[k]
    ensures SelectedLoss(p, t, mask[k := false], from) == SelectedLoss(p, t, mask, from) - Loss(p, t, from + k)
    decreases |mask|
  {
    hide Loss;
    if k > 0 {
      SelectedLossWithout(p, t, mask[1..], from + 1, k - 1);
      assert mask[k := false][1..] == mask[1..][k - 1 := false];
    } else {
      assert mask[k := false][1..] == mask[1..];
    }
  }

  /** Between a bound with all of scenario k and one without it. */
  lemma Interpolate(part: real, count: real, level: real, total: real, alpha: real, slack: real)
    requires 0.0 <= part < 1.0
    requires total <= Times(count, alpha) + slack
    requires total - level <= Times(count - 1.0, alpha) + slack
    ensures total - Times(part, level) <= Times(count - part, alpha) + slack
  {
    hide Times;
    var high, low := Times(count, alpha) + slack - total, Times(count - 1.0, alpha) + slack - (total - level);
    assert low - high == level - alpha by {
      TimesDistributes(alpha, count, -1.0);
      TimesUnits(alpha);
    }
    assert Times(part, high) <= high && Times(part, low) >= 0.0 by {
      TimesMonotone(high, part, 1.0);
      TimesMonotone(part, 0.0, low);
      TimesUnits(high);
      TimesUnits(part);
    }
    assert Times(part, low) - Times(part, high) == Times(part, level) - Times(part, alpha) by {
      TimesMinus(part, low, high);
      TimesMinus(part, level, alpha);
    }
    TimesDistributes(alpha, count, -part);
    NegatedProduct(part, alpha);
  }

  lemma TimesMinus(k: real, x: real, y: real)
    ensures Times(k, x - y) == Times(k, x) - Times(k, y)
  {
  }

  /** The scaled bound as a mean. */
  lemma BoundOfMean(rate: real, size: real, total: real, alpha: real, slack: real)
    requires rate > 0.0 && Times(rate, size) == 1.0 && total <= Times(size, alpha) + slack
    ensures Times(rate, total) <= alpha + Times(rate, slack)
  {
    TimesMonotone(rate, total, Times(size, alpha) + slack);
    TimesDistributes(rate, Times(size, alpha), slack);
    assert Times(rate, Times(size, alpha)) == Times(Times(rate, size), alpha);
    TimesUnits(alpha);
  }

  /** Any allowed point's CVaR variable is at least the mean of the tail. */
  lemma CvarDominatesTail(p: Inputs, t: Point, mask: seq<bool>, k: nat)
    requires p.Valid() && Allowed(p, t) && |mask| == p.Scenarios() && k < |mask| && mask[k]
    requires CountSelected(mask) as real - 1.0 < p.TailSize() <= CountSelected(mask) as real
    ensures TailCvar(p, t, mask, k) <= t.cvar
  {
    var without := mask[k := false];
    var count, part := CountSelected(mask) as real, CountSelected(mask) as real - p.TailSize();
    AllowedCvar(p, t);
    hide Times, Loss, Allowed, Inputs.TailRate, Inputs.TailSize, SelectedLoss;
    SelectOne(without, k);
    assert without[k := true] == mask;
    SelectedLossBound(p, t, mask, 0);
    SelectedLossBound(p, t, without, 0);
    SelectedLossWithout(p, t, mask, 0, k);
    assert t.slack[0..] == t.slack;
    Interpolate(part, count, Loss(p, t, k), SelectedLoss(p, t, mask, 0), t.alpha, Sum(t.slack));
    TailRateInverse(p);
    BoundOfMean(p.TailRate(), p.TailSize(), TailLoss(p, t, mask, k), t.alpha, Sum(t.slack));
  }

  lemma AllowedCvar(p: Inputs, t: Point)
    requires p.Valid() && Allowed(p, t)
    ensures t.cvar >= 0.0 && t.alpha + Times(p.TailRate(), Sum(t.slack)) <= t.cvar
  {
  }

  lemma SameTail(p: Inputs, t: Point, u: Point, mask: seq<bool>, k: nat)
    requires p.Valid() && Shaped(p, t) && Shaped(p, u) && u.weights == t.weights
    requires |mask| == p.Scenarios() && k < |mask|
    ensures TailCvar(p, u, mask, k) == TailCvar(p, t, mask, k)
  {
    hide Loss, Times, Inputs.TailRate, Inputs.TailSize;
    SameLoss(p, t, u, k);
    SameSelectedLoss(p, t, u, mask, 0);
  }

  /** And that is the least CVaR variable of all allowed points with these weights. */
  lemma CvarIsLeast(p: Inputs, t: Point) returns (u: Point, mask: seq<bool>, k: nat)
    requires p.Valid() && p.curve >= 0.0 && p.confidence >= 0.0 && p.Scenarios() >= 1 && Allowed(p, t)
    ensures IsTail(p, t, mask, k)
    ensures Allowed(p, u) && u.weights == t.weights && u.cvar == TailCvar(p, t, mask, k)
    ensures forall other :: Allowed(p, other) && other.weights == t.weights ==> u.cvar <= other.cvar
  {
    hide Times, Loss, Allowed, LeastOfWorst, TailCvar, Inputs.TailSize;
    AllowedIsShaped(p, t);
    u, mask, k := CvarIsAttained(p, t);
    LeastIsSelected(p, t, mask, k);
    forall other | Allowed(p, other) && other.weights == t.weights
      ensures u.cvar <= other.cvar
    {
      AllowedIsShaped(p, other);
      CvarDominatesTail(p, other, mask, k);
      SameTail(p, t, other, mask, k);
    }
  }

  lemma LeastIsSelected(p: Inputs, t: Point, mask: seq<bool>, k: nat)
    requires p.Valid() && Shaped(p, t) && IsTail(p, t, mask, k)
    ensures k < |mask| && mask[k]
  {
  }

  /** A tail of whole scenarios: the CVaR is the mean loss of the worst ones, or zero. */
  lemma WholeTail(p: Inputs, t: Point, mask: seq<bool>, k: nat)
    requires p.Valid() && Shaped(p, t) && |mask| == p.Scenarios() && k < |mask|
    requires CountSelected(mask) as real == p.TailSize()
    ensures Times(CountSelected(mask) as real, TailCvar(p, t, mask, k)) == Max(0.0, SelectedLoss(p, t, mask, 0))
  {
    hide Loss, Times, Inputs.TailRate, Inputs.TailSize, SelectedLoss;
    TailRateInverse(p);
    TimesUnits(Loss(p, t, k));
    MeanTimesSize(p.TailRate(), p.TailSize(), SelectedLoss(p, t, mask, 0));
  }

  lemma MeanTimesSize(rate: real, size: real, total: real)
    requires rate > 0.0 && Times(rate, size) == 1.0
    ensures Times(size, Max(0.0, Times(rate, total))) == Max(0.0, total)
  {
    assert Times(size, Times(rate, total)) == Times(Times(rate, size), total);
    TimesUnits(total);
    TimesUnits(size);
    assert total > 0.0 ==> rate * total > 0.0;
    assert total < 0.0 ==> rate * total < 0.0;
  }
}
