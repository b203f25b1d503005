/**
 What follows from the constraints of LpEncoding at every allowed point.

 Main results: all cash always satisfies them (AllCashIsAllowed); the objective is bounded below
 (ObjectiveBounded); the CVaR variable dominates the mean loss of every large enough set of scenarios
 (CvarDominatesTails; LpTail shows that this is exact); a feasible vector of the matrix answers for the
 losses of its weights (ProgramMeans, LossesAreCovered); the thirteen tangents never cut off the
 quadratic penalty and stay within a stated distance of it (TangentsAreBelow, TangentsAreClose).
 */
module LpProperties {
  import opened Common
  import opened Linear
  import opened LpEncoding

  // ---------------------------------------------------------------- points and vectors

  /** The vector of a point, in the layout's order. */
  function Write(t: Point): seq<real> {
    t.weights + [t.cash] + [t.alpha] + t.slack + t.turnover + [t.cvar] + [t.penalty]
  }

  /** Every point is some vector's reading, so what holds of points holds of the matrix. */
  lemma ReadWrite(p: Inputs, t: Point)
    requires p.Valid() && Shaped(p, t)
    ensures |Write(t)| == p.Variables() && Read(p, Write(t)) == t
  {
    var x := Write(t);
    assert x[..p.Assets()] == t.weights;
    assert x[p.SlackStart()..p.TurnoverStart()] == t.slack;
    assert x[p.TurnoverStart()..p.Cvar()] == t.turnover;
  }

  /** And no two vectors read alike: nothing of a vector is lost. */
  lemma WriteRead(p: Inputs, x: seq<real>)
    requires p.Valid() && |x| == p.Variables()
    ensures Shaped(p, Read(p, x)) && Write(Read(p, x)) == x
  {
    assert x == x[..p.Assets()] + [x[p.Assets()]] + [x[p.Alpha()]] + x[p.SlackStart()..p.TurnoverStart()]
             + x[p.TurnoverStart()..p.Cvar()] + [x[p.Cvar()]] + [x[p.Penalty()]];
  }

  function Changes(target: seq<real>, current: seq<real>): (changes: seq<real>)
    requires |target| == |current|
    ensures |changes| == |target|
    ensures forall i :: 0 <= i < |target| ==> changes[i] == Abs(target[i] - current[i])
  {
    if target == [] then [] else [Abs(target[0] - current[0])] + Changes(target[1..], current[1..])
  }

  // ---------------------------------------------------------------- feasibility

  function AllCash(p: Inputs): Point
    requires p.Valid()
  {
    var weights := Constant(p.Assets(), 0.0);
    Point(weights, 1.0, 0.0, Constant(p.Scenarios(), 0.0), Changes(weights + [1.0], p.current), 0.0, 0.0)
  }

  lemma OffsetNonNegative(p: Inputs, k: nat)
    requires p.riskReference > 0.0 && p.curve >= 0.0
    ensures p.Offset(k) >= 0.0
  {
    var u := p.RiskPoint(k) / p.riskReference;
    assert u * u >= 0.0;
  }

  /** Holding only cash satisfies every constraint, whatever the data. */
  lemma AllCashIsAllowed(p: Inputs)
    requires p.Valid() && p.maxWeight >= 0.0 && p.curve >= 0.0
    ensures Allowed(p, AllCash(p))
  {
    hide Times;
    hide Dot;
    hide Inputs.Offset;
    hide Inputs.Slope;
    hide Inputs.TailRate;
    var t := AllCash(p);
    SumConstant(p.Assets(), 0.0);
    TimesUnits(p.Assets() as real);
    SumConstant(p.Scenarios(), 0.0);
    TimesUnits(p.Scenarios() as real);
    TimesUnits(p.TailRate());
    forall s | 0 <= s < p.Scenarios()
      ensures ScenarioHolds(p, t, s)
    {
      DotZeros(p.Assets(), p.history[s]);
    }
    forall k | 0 <= k < TANGENTS
      ensures TangentHolds(p, t, k)
    {
      OffsetNonNegative(p, k);
      TimesUnits(p.Slope(k));
    }
    forall l | 0 <= l < |p.links|
      ensures LinkHolds(p, t, l)
    {
      TimesUnits(p.links[l].closeness);
    }
  }

  // ---------------------------------------------------------------- boundedness and turnover

  lemma TurnoverRateNonNegative(p: Inputs)
    requires p.riskReference > 0.0 && p.turnoverPenalty >= 0.0 && p.estimatedCost >= 0.0
    ensures p.TurnoverRate() >= 0.0
  {
    var q := p.estimatedCost / p.riskReference;
    assert q * p.riskReference == p.estimatedCost;
    if q < 0.0 { NegativeProduct(q, p.riskReference); }
  }

  lemma NegativeProduct(q: real, r: real)
    requires q < 0.0 && r > 0.0
    ensures q * r < 0.0
  {
  }

  predicate ValidCosts(p: Inputs) {
    && p.riskReference > 0.0 && p.signalScale >= 0.0 && p.riskAversion >= 0.0
    && p.turnoverPenalty >= 0.0 && p.estimatedCost >= 0.0
    && forall i :: 0 <= i < |p.reward| ==> 0.0 <= p.reward[i] <= 1.0
  }

  /** No allowed point gains more than the signal scale, so the minimisation is bounded. */
  lemma ObjectiveBounded(p: Inputs, t: Point)
    requires p.Valid() && ValidCosts(p) && Allowed(p, t)
    ensures Objective(p, t) >= -p.signalScale
  {
    hide Times;
    hide Dot;
    hide ConstraintsHold;
    hide Inputs.TurnoverRate;
    var gain := Dot(p.reward, t.weights);
    assert forall i :: 0 <= i < p.Assets() ==> t.weights[i] >= 0.0;
    DotAtMostSum(p.reward, t.weights);
    TimesMonotone(p.signalScale, gain, 1.0);
    TimesDistributes(p.signalScale, gain, 0.0);
    OneTimes(p.signalScale);
    TurnoverRateNonNegative(p);
    var z := t.turnover[..p.Assets()];
    forall i | 0 <= i < |z|
      ensures z[i] >= 0.0
    {
      assert z[i] == t.turnover[i];
    }
    SumNonNegative(z);
    TimesMonotone(p.TurnoverRate(), 0.0, Sum(z));
    TimesUnits(p.TurnoverRate());
    TimesMonotone(p.riskAversion, 0.0, t.penalty);
    TimesUnits(p.riskAversion);
  }

  lemma OneTimes(k: real)
    ensures Times(k, 1.0) == k
  {
  }

  lemma {:induction false} SumMonotone(a: seq<real>, b: seq<real>)
    requires |a| == |b| && forall i :: 0 <= i < |a| ==> a[i] <= b[i]
    ensures Sum(a) <= Sum(b)
  {
    if a != [] {
      SumMonotone(a[1..], b[1..]);
    }
  }

  /** The auxiliary turnover variables can always be lowered to the real changes, at no cost: at an
      optimum the program charges exactly the two-sided turnover. */
  lemma TurnoverIsExact(p: Inputs, t: Point)
    requires p.Valid() && ValidCosts(p) && Allowed(p, t)
    ensures var exact := t.(turnover := Changes(Target(t), p.current));
            Allowed(p, exact) && Objective(p, exact) <= Objective(p, t)
  {
    hide Times;
    hide Dot;
    hide Inputs.TurnoverRate;
    hide CvarHolds;
    hide TangentHolds;
    hide LinkHolds;
    var exact := t.(turnover := Changes(Target(t), p.current));
    forall i | 0 <= i <= p.Assets()
      ensures 0.0 <= exact.turnover[i] <= t.turnover[i] && TurnoverHolds(p, exact, i)
    {
      assert TurnoverHolds(p, t, i);
    }
    SameOtherConstraints(p, t, exact);
    SumMonotone(exact.turnover[..p.Assets()], t.turnover[..p.Assets()]);
    TurnoverRateNonNegative(p);
    TimesMonotone(p.TurnoverRate(), Sum(exact.turnover[..p.Assets()]), Sum(t.turnover[..p.Assets()]));
  }

  lemma SameOtherConstraints(p: Inputs, t: Point, u: Point)
    requires p.Valid() && Allowed(p, t) && Shaped(p, u) && u == t.(turnover := u.turnover)
    ensures forall s :: 0 <= s < p.Scenarios() ==> ScenarioHolds(p, u, s)
    ensures CvarHolds(p, u)
    ensures forall k :: 0 <= k < TANGENTS ==> TangentHolds(p, u, k)
    ensures forall l :: 0 <= l < |p.links| ==> LinkHolds(p, u, l)
  {
    hide Times;
    hide Dot;
    forall s | 0 <= s < p.Scenarios()
      ensures ScenarioHolds(p, u, s)
    {
      assert ScenarioHolds(p, t, s);
    }
    forall k | 0 <= k < TANGENTS
      ensures TangentHolds(p, u, k)
    {
      assert TangentHolds(p, t, k);
    }
    forall l | 0 <= l < |p.links|
      ensures LinkHolds(p, u, l)
    {
      assert LinkHolds(p, t, l);
    }
  }

  /** A linked asset never outweighs the primary one. */
  lemma SecondaryBelowPrimary(p: Inputs, t: Point, l: nat)
    requires p.Valid() && Allowed(p, t) && l < |p.links| && 0.0 <= p.links[l].closeness <= 1.0
    ensures t.weights[p.links[l].index] <= t.weights[p.primary]
  {
    hide Times;
    assert LinkHolds(p, t, l);
    assert t.weights[p.primary] >= 0.0;
    TimesMonotone(t.weights[p.primary], p.links[l].closeness, 1.0);
    TimesUnits(t.weights[p.primary]);
  }

  // ---------------------------------------------------------------- CVaR

  function CountSelected(mask: seq<bool>): nat {
    if mask == [] then 0 else (if mask[0] then 1 else 0) + CountSelected(mask[1..])
  }

  /** Total loss of the selected scenarios from the first one on. */
  function SelectedLoss(p: Inputs, t: Point, mask: seq<bool>, from: nat): real
    requires p.Valid() && Shaped(p, t) && from + |mask| == p.Scenarios()
    decreases |mask|
  {
    if mask == [] then 0.0
    else (if mask[0] then Loss(p, t, from) else 0.0) + SelectedLoss(p, t, mask[1..], from + 1)
  }

  lemma {:induction false} SelectedLossBound(p: Inputs, t: Point, mask: seq<bool>, from: nat)
    requires p.Valid() && Allowed(p, t) && from + |mask| == p.Scenarios()
    ensures SelectedLoss(p, t, mask, from)
            <= Times(CountSelected(mask) as real, t.alpha) + Sum(t.slack[from..])
    decreases |mask|
  {
    hide Times;
    hide Loss;
    if mask == [] {
      TimesUnits(t.alpha);
      assert t.slack[from..] == [];
    } else {
      SelectedLossBound(p, t, mask[1..], from + 1);
      assert t.slack[from..][1..] == t.slack[from + 1..];
      assert t.slack[from] >= 0.0 && ScenarioHolds(p, t, from);
      TimesDistributes(t.alpha, 1.0, CountSelected(mask[1..]) as real);
      TimesUnits(t.alpha);
    }
  }

  lemma TailRateInverse(p: Inputs)
    ensures p.TailRate() > 0.0
    ensures p.TailSize() > 0.0 && Times(p.TailRate(), p.TailSize()) == 1.0
  {
    InverseFacts(p.TailSize());
  }

  lemma InverseFacts(m: real)
    requires m > 0.0
    ensures 1.0 / m > 0.0 && Times(1.0 / m, m) == 1.0
  {
    var r := 1.0 / m;
    assert r * m == 1.0;
    if r < 0.0 { NegativeProduct(r, m); }
  }

  /** From rate * total <= room and count * rate >= 1 to total <= count * room. */
  lemma Rescale(rate: real, m: real, total: real, room: real, count: real)
    requires rate > 0.0 && Times(rate, m) == 1.0 && total >= 0.0 && count >= m
    requires Times(rate, total) <= room
    ensures total <= Times(count, room)
  {
    TimesMonotone(rate, m, count);
    TimesMonotone(total, 1.0, Times(count, rate));
    assert Times(Times(count, rate), total) == Times(count, Times(rate, total));
    assert Times(rate, total) >= 0.0;
    InverseSign(rate, m);
    TimesMonotone(count, Times(rate, total), room);
  }

  lemma InverseSign(rate: real, m: real)
    requires rate > 0.0 && Times(rate, m) == 1.0
    ensures m > 0.0
  {
    if m <= 0.0 { TimesMonotone(rate, m, 0.0); }
  }

  /** The CVaR variable is at least the mean loss of any set of scenarios that makes up the tail or
      more. */
  lemma CvarDominatesTails(p: Inputs, t: Point, mask: seq<bool>)
    requires p.Valid() && Allowed(p, t) && |mask| == p.Scenarios()
    requires CountSelected(mask) >= 1 && CountSelected(mask) as real >= (1.0 - p.confidence) * p.Scenarios() as real
    ensures SelectedLoss(p, t, mask, 0) <= Times(CountSelected(mask) as real, t.cvar)
  {
    var m := p.TailSize();
    TailRateInverse(p);
    SelectedLossBound(p, t, mask, 0);
    hide Times;
    hide Inputs.TailRate;
    hide ScenarioHolds;
    hide TangentHolds;
    hide LinkHolds;
    hide TurnoverHolds;
    assert t.slack[0..] == t.slack;
    SumNonNegative(t.slack);
    var count := CountSelected(mask) as real;
    Rescale(p.TailRate(), m, Sum(t.slack), t.cvar - t.alpha, count);
    TimesDistributes(count, t.cvar - t.alpha, t.alpha);
  }

  // ---------------------------------------------------------------- the tangents

  /** The quadratic penalty the tangents stand for. */
  function Quadratic(p: Inputs, cvar: real): real
    requires p.riskReference > 0.0
  {
    Curved(p.curve, cvar / p.riskReference)
  }

  function Curved(curve: real, u: real): real { curve * (u * u) }

  /** In units of the reference: tangent k at u is curve * (u^2 - (u - t)^2). */
  lemma TangentGap(p: Inputs, k: nat, cvar: real, u: real, t: real)
    requires p.riskReference > 0.0 && u * p.riskReference == cvar && t * p.riskReference == p.RiskPoint(k)
    ensures Times(p.Slope(k), cvar) - p.Offset(k) == Quadratic(p, cvar) - Curved(p.curve, u - t)
  {
    var r := p.riskReference;
    assert cvar / r == u;
    assert p.RiskPoint(k) / r == t;
    SlopeInUnits(p.curve, p.RiskPoint(k), r, t, u);
  }

  lemma SlopeInUnits(curve: real, point: real, r: real, t: real, u: real)
    requires r > 0.0 && t * r == point
    ensures TangentSlope(curve, point, r) * (u * r) == 2.0 * (curve * (t * u))
  {
    var slope := TangentSlope(curve, point, r);
    assert slope * (r * r) == 2.0 * curve * point;
    var s := slope * r;
    assert s * r == (2.0 * (curve * t)) * r;
    assert s == 2.0 * (curve * t);
    assert slope * (u * r) == s * u;
  }

  /** The tangents never cut off the true penalty: paying the quadratic satisfies all thirteen. */
  lemma TangentsAreBelow(p: Inputs, t: Point)
    requires p.riskReference > 0.0 && p.curve >= 0.0 && t.penalty >= Quadratic(p, t.cvar)
    ensures forall k :: 0 <= k < TANGENTS ==> TangentHolds(p, t, k)
  {
    forall k | 0 <= k < TANGENTS
      ensures TangentHolds(p, t, k)
    {
      var u, v := t.cvar / p.riskReference, p.RiskPoint(k) / p.riskReference;
      UnitsFacts(t.cvar, p.riskReference);
      UnitsFacts(p.RiskPoint(k), p.riskReference);
      TangentGap(p, k, t.cvar, u, v);
      CurvedMonotone(p.curve, 0.0, u - v);
    }
  }

  lemma UnitsFacts(x: real, r: real)
    requires r > 0.0
    ensures (x / r) * r == x
  {
  }

  lemma CurvedMonotone(curve: real, a: real, b: real)
    requires curve >= 0.0 && a * a <= b * b
    ensures 0.0 <= Curved(curve, a) <= Curved(curve, b)
  {
    assert a * a >= 0.0;
    TimesMonotone(curve, 0.0, a * a);
    TimesMonotone(curve, a * a, b * b);
  }

  lemma RiskPoints(p: Inputs, k: nat)
    ensures p.RiskPoint(0) == 0.0 && p.RiskPoint(12) == p.riskCeiling
    ensures p.RiskPoint(k + 1) == p.RiskPoint(k) + p.riskCeiling / 12.0
  {
  }

  ghost predicate Near(p: Inputs, cvar: real, k: nat) {
    -p.riskCeiling / 24.0 <= cvar - p.RiskPoint(k) <= p.riskCeiling / 24.0
  }

  /** The grid point nearest to a CVaR within the ceiling is at most half a step away. */
  lemma NearestPoint(p: Inputs, cvar: real, from: nat) returns (k: nat)
    requires p.riskCeiling > 0.0 && cvar <= p.riskCeiling
    requires from < TANGENTS && cvar >= p.RiskPoint(from) - p.riskCeiling / 24.0
    ensures k < TANGENTS && Near(p, cvar, k)
    decreases TANGENTS - from
  {
    hide Inputs.RiskPoint;
    RiskPoints(p, from);
    if cvar <= p.RiskPoint(from) + p.riskCeiling / 24.0 {
      k := from;
    } else {
      k := NearestPoint(p, cvar, from + 1);
    }
  }

  /** Up to the risk ceiling an allowed point pays the quadratic penalty but for at most
      curve * (ceiling / (24 * reference))^2. */
  lemma TangentsAreClose(p: Inputs, t: Point, step: real)
    requires p.Valid() && p.curve >= 0.0 && p.riskCeiling > 0.0
    requires Allowed(p, t) && t.cvar <= p.riskCeiling
    requires step * p.riskReference == p.riskCeiling / 24.0
    ensures t.penalty >= Quadratic(p, t.cvar) - Curved(p.curve, step)
  {
    hide Inputs.RiskPoint;
    hide TangentHolds;
    hide Quadratic;
    hide Curved;
    RiskPoints(p, 0);
    var k := NearestPoint(p, t.cvar, 0);
    assert TangentHolds(p, t, k);
    TangentWithinStep(p, t, k, step);
  }

  lemma TangentWithinStep(p: Inputs, t: Point, k: nat, step: real)
    requires p.riskReference > 0.0 && p.curve >= 0.0 && TangentHolds(p, t, k) && Near(p, t.cvar, k)
    requires step * p.riskReference == p.riskCeiling / 24.0
    ensures t.penalty >= Quadratic(p, t.cvar) - Curved(p.curve, step)
  {
    hide Times;
    hide Inputs.RiskPoint;
    hide Inputs.Slope;
    hide Inputs.Offset;
    hide Quadratic;
    hide Curved;
    var r := p.riskReference;
    var u, v := t.cvar / r, p.RiskPoint(k) / r;
    UnitsFacts(t.cvar, r);
    UnitsFacts(p.RiskPoint(k), r);
    TangentGap(p, k, t.cvar, u, v);
    StepSquare(u, v, step, r, t.cvar, p.RiskPoint(k));
    CurvedMonotone(p.curve, u - v, step);
  }

  lemma StepSquare(u: real, v: real, step: real, r: real, ur: real, vr: real)
    requires r > 0.0 && u * r == ur && v * r == vr && -(step * r) <= ur - vr <= step * r
    ensures (u - v) * (u - v) <= step * step
  {
    var d := u - v;
    assert d * r == ur - vr;
    if d > step { NegativeProduct(step - d, r); }
    if d < -step { NegativeProduct(d + step, r); }
    assert (step - d) * (step + d) >= 0.0;
  }

  // ---------------------------------------------------------------- the matrix itself

  /** The constraints on the entries of a vector: weights and cash, losses and their tail, tangents, links
      and turnover. */
  ghost predicate Meets(p: Inputs, x: seq<real>)
    requires p.Valid() && |x| == p.Variables()
  {
    && (forall i :: 0 <= i < p.Assets() ==> WithinCap(p, x, i))
    && (forall s :: 0 <= s < p.Scenarios() ==> CoversLoss(p, x, s))
    && (forall k :: 0 <= k < TANGENTS ==> AboveTangent(p, x, k))
    && (forall l :: 0 <= l < |p.links| ==> BelowPrimary(p, x, l))
    && (forall i :: 0 <= i <= p.Assets() ==> CoversChange(p, x, i))
    && Balanced(p, x)
  }

  predicate WithinCap(p: Inputs, x: seq<real>, i: nat)
    requires p.Valid() && |x| == p.Variables() && i < p.Assets()
  {
    0.0 <= x[i] <= if p.eligible[i] then p.maxWeight else 0.0
  }

  /** The slack of scenario s is at least the loss beyond alpha, a loss being minus the return. */
  predicate CoversLoss(p: Inputs, x: seq<real>, s: nat)
    requires p.Valid() && |x| == p.Variables() && s < p.Scenarios()
  {
    var slack := x[p.SlackStart() + s];
    slack >= 0.0 && slack >= -Dot(p.history[s], x[..p.Assets()]) - x[p.Alpha()]
  }

  predicate AboveTangent(p: Inputs, x: seq<real>, k: nat)
    requires p.Valid() && |x| == p.Variables()
  {
    x[p.Penalty()] >= Times(p.Slope(k), x[p.Cvar()]) - p.Offset(k)
  }

  predicate BelowPrimary(p: Inputs, x: seq<real>, l: nat)
    requires p.Valid() && |x| == p.Variables() && l < |p.links|
  {
    x[p.links[l].index] <= Times(p.links[l].closeness, x[p.primary])
  }

  predicate CoversChange(p: Inputs, x: seq<real>, i: nat)
    requires p.Valid() && |x| == p.Variables() && i <= p.Assets()
  {
    x[p.TurnoverStart() + i] >= Abs(x[i] - p.current[i])
  }

  /** Weights and cash make up the account, and the CVaR entry is at least the CVaR of the slacks. */
  ghost predicate Balanced(p: Inputs, x: seq<real>)
    requires p.Valid() && |x| == p.Variables()
  {
    && Sum(x[..p.Assets()]) + x[p.Assets()] == 1.0 && 0.0 <= x[p.Assets()] <= 1.0
    && x[p.Alpha()] + Times(p.TailRate(), Sum(x[p.SlackStart()..p.TurnoverStart()])) <= x[p.Cvar()]
    && x[p.Cvar()] >= 0.0 && x[p.Penalty()] >= 0.0
  }

  /** The matrix asks exactly for that, and charges what the entries cost. */
  lemma ProgramMeans(lp: Lp, p: Inputs, x: seq<real>)
    requires p.Valid() && Encodes(lp, p) && |x| == p.Variables()
    ensures Feasible(lp, x) <==> Meets(p, x)
    ensures Dot(lp.c, x)
            == -Times(p.signalScale, Dot(p.reward, x[..p.Assets()]))
               + Times(p.turnoverPenalty + p.estimatedCost / p.riskReference,
                       Sum(x[p.TurnoverStart()..p.TurnoverStart() + p.Assets()]))
               + Times(p.riskAversion, x[p.Penalty()])
  {
    AllowedMeets(p, x);
    ObjectiveMeans(p, x);
    hide Allowed, Meets, Feasible, Times, Dot, Objective;
  }

  lemma ObjectiveMeans(p: Inputs, x: seq<real>)
    requires p.Valid() && |x| == p.Variables()
    ensures Shaped(p, Read(p, x))
    ensures Objective(p, Read(p, x))
            == -Times(p.signalScale, Dot(p.reward, x[..p.Assets()]))
               + Times(p.turnoverPenalty + p.estimatedCost / p.riskReference,
                       Sum(x[p.TurnoverStart()..p.TurnoverStart() + p.Assets()]))
               + Times(p.riskAversion, x[p.Penalty()])
  {
    hide Times, Dot;
    assert Read(p, x).turnover[..p.Assets()] == x[p.TurnoverStart()..p.TurnoverStart() + p.Assets()];
    TimesDistributes(p.signalScale, Dot(p.reward, x[..p.Assets()]), 0.0);
  }

  lemma AllowedMeets(p: Inputs, x: seq<real>)
    requires p.Valid() && |x| == p.Variables()
    ensures Allowed(p, Read(p, x)) <==> Meets(p, x)
  {
    hide Times, Dot, Inputs.TailRate, Inputs.Slope, Inputs.Offset;
    var t := Read(p, x);
    ReadAt(p, x);
    assert Shaped(p, t);
    assert Balanced(p, x) <==> Sum(t.weights) + t.cash == 1.0 && 0.0 <= t.cash <= 1.0 && CvarHolds(p, t)
                               && t.cvar >= 0.0 && t.penalty >= 0.0;
    forall i | 0 <= i < p.Assets()
      ensures WithinCap(p, x, i) <==> 0.0 <= t.weights[i] <= if p.eligible[i] then p.maxWeight else 0.0
    {
    }
    forall s | 0 <= s < p.Scenarios()
      ensures CoversLoss(p, x, s) <==> ScenarioHolds(p, t, s) && t.slack[s] >= 0.0
    {
    }
    forall k | 0 <= k < TANGENTS
      ensures AboveTangent(p, x, k) <==> TangentHolds(p, t, k)
    {
    }
    forall l | 0 <= l < |p.links|
      ensures BelowPrimary(p, x, l) <==> LinkHolds(p, t, l)
    {
    }
    forall i | 0 <= i <= p.Assets()
      ensures CoversChange(p, x, i) <==> TurnoverHolds(p, t, i) && t.turnover[i] >= 0.0
    {
      assert Target(t)[i] == x[i];
    }
    hide ScenarioHolds, CoversLoss, TurnoverHolds, CoversChange, LinkHolds, BelowPrimary, TangentHolds, AboveTangent;
    hide WithinCap, Balanced, CvarHolds, Read;
    MeetsParts(p, x, t);
  }

  lemma MeetsParts(p: Inputs, x: seq<real>, t: Point)
    requires p.Valid() && |x| == p.Variables() && Shaped(p, t)
    requires Balanced(p, x) <==> Sum(t.weights) + t.cash == 1.0 && 0.0 <= t.cash <= 1.0 && CvarHolds(p, t)
                                 && t.cvar >= 0.0 && t.penalty >= 0.0
    requires forall i :: 0 <= i < p.Assets() ==>
               (WithinCap(p, x, i) <==> 0.0 <= t.weights[i] <= if p.eligible[i] then p.maxWeight else 0.0)
    requires forall s :: 0 <= s < p.Scenarios() ==>
               (CoversLoss(p, x, s) <==> ScenarioHolds(p, t, s) && t.slack[s] >= 0.0)
    requires forall k :: 0 <= k < TANGENTS ==> (AboveTangent(p, x, k) <==> TangentHolds(p, t, k))
    requires forall l :: 0 <= l < |p.links| ==> (BelowPrimary(p, x, l) <==> LinkHolds(p, t, l))
    requires forall i :: 0 <= i <= p.Assets() ==>
               (CoversChange(p, x, i) <==> TurnoverHolds(p, t, i) && t.turnover[i] >= 0.0)
    ensures Allowed(p, t) <==> Meets(p, x)
  {
    hide ScenarioHolds, CoversLoss, TurnoverHolds, CoversChange, LinkHolds, BelowPrimary, TangentHolds, AboveTangent;
    hide WithinCap, Balanced, CvarHolds;
    if Meets(p, x) {
      assert Allowed(p, t);
    }
    if Allowed(p, t) {
      forall s | 0 <= s < p.Scenarios()
        ensures CoversLoss(p, x, s)
      {
        assert t.slack[s] >= 0.0;
      }
      assert Meets(p, x);
    }
  }

  lemma {:induction false} SelectedAtLeast(p: Inputs, t: Point, mask: seq<bool>, from: nat, loss: real)
    requires p.Valid() && Shaped(p, t) && from + |mask| == p.Scenarios()
    requires forall i :: 0 <= i < |mask| && mask[i] ==> Dot(p.history[from + i], t.weights) <= -loss
    ensures SelectedLoss(p, t, mask, from) >= Times(CountSelected(mask) as real, loss)
    decreases |mask|
  {
    hide Times, Dot;
    if mask == [] {
      TimesUnits(loss);
    } else {
      assert forall i :: 0 <= i < |mask| - 1 && mask[1..][i] ==> Dot(p.history[from + 1 + i], t.weights) <= -loss by {
        forall i | 0 <= i < |mask| - 1 && mask[1..][i]
          ensures Dot(p.history[from + 1 + i], t.weights) <= -loss
        {
          assert mask[i + 1];
          assert from + (i + 1) == from + 1 + i;
        }
      }
      SelectedAtLeast(p, t, mask[1..], from + 1, loss);
      assert mask[0] ==> Dot(p.history[from + 0], t.weights) <= -loss;
      TimesDistributes(loss, 1.0, CountSelected(mask[1..]) as real);
      TimesUnits(loss);
    }
  }

  /** Every feasible vector answers for its losses: if in a tail of scenarios or more its weights lost at
      least so much of the account, its CVaR entry is at least that. */
  lemma LossesAreCovered(lp: Lp, p: Inputs, x: seq<real>, mask: seq<bool>, loss: real)
    requires p.Valid() && Encodes(lp, p) && |x| == p.Variables() && Feasible(lp, x)
    requires |mask| == p.Scenarios() && CountSelected(mask) >= 1
    requires CountSelected(mask) as real >= (1.0 - p.confidence) * p.Scenarios() as real
    requires forall s :: 0 <= s < |mask| && mask[s] ==> Dot(p.history[s], x[..p.Assets()]) <= -loss
    ensures x[p.Cvar()] >= loss
  {
    var t, count := Read(p, x), CountSelected(mask) as real;
    assert Allowed(p, t);
    CvarDominatesTails(p, t, mask);
    hide Times, Dot, Allowed, Feasible, Encodes;
    assert forall i :: 0 <= i < |mask| && mask[i] ==> Dot(p.history[0 + i], t.weights) <= -loss;
    SelectedAtLeast(p, t, mask, 0, loss);
    DivideBy(count, loss, t.cvar);
  }

  lemma DivideBy(count: real, a: real, b: real)
    requires count >= 1.0 && Times(count, a) <= Times(count, b)
    ensures a <= b
  {
    var d := a - b;
    assert count * d == count * a - count * b;
    assert d > 0.0 ==> count * d > 0.0;
  }
}
