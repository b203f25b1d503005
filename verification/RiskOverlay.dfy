/**
 The closed-form risk overlay of engine/compound_risk_overlay.py: the weight of the one target
 asset is the best of at most five candidate points of a concave piecewise quadratic with a kink
 at the weight already held.

 Main results: the chosen weight has a closed form (OptimumIsClosedForm) and beats every other
 weight by a quadratic margin (OptimumGrowth) when the curvature is above the source's threshold;
 below it the loss is at most 1.25e-13, that bound is reached, and the exact condition under which
 nothing is lost is given (LowCurvatureError, LowCurvatureErrorIsReached, LowCurvatureExact). More
 risk means less exposure, with one exception across that threshold (OptimumFallsWithRisk,
 RiskierHoldsMore). The decision that is returned is the best one by the rewards, risks and costs of the
 market, the book and the configuration (OptimizeIsBest).
 */
module RiskOverlay {
  import opened Common

  const TINY: real := 0.000000000001
  const STATUS_TOLERANCE: real := 0.000000001
  const LOW_CURVATURE_LOSS: real := 0.000000000000125

  // ---------------------------------------------------------------- the scalar problem

  datatype Problem = Problem(
    reward: real, riskAversion: real, normalizedRisk: real, turnoverPenalty: real, maxWeight: real,
    current: real, other: real, buyCost: real, sellCost: real)
  {
    /** What the clamps of the source guarantee, see OptimizedProblemIsValid. */
    predicate Valid() {
      && reward >= TINY && riskAversion >= 0.0 && normalizedRisk >= 0.0 && turnoverPenalty >= 0.0
      && 0.0 <= maxWeight <= 1.0 && 0.0 <= current <= 1.0 && other >= 0.0
      && buyCost >= 0.0 && sellCost >= 0.0
    }

    function Clip(w: real): real {
      Min(maxWeight, Max(0.0, w))
    }

    function Objective(weight: real): real {
      var w := Clip(weight);
      var exposure := normalizedRisk * w;
      reward * w
      - 0.5 * riskAversion * (exposure * exposure)
      - turnoverPenalty * (other + Abs(w - current))
      - (buyCost * Max(0.0, w - current) + sellCost * Max(0.0, current - w))
    }

    function Curvature(): real {
      riskAversion * normalizedRisk * normalizedRisk
    }

    function Candidates(): seq<real> {
      var corners := [0.0, maxWeight, Clip(current)];
      var curvature := Curvature();
      if curvature > TINY then
        var lower := (reward + turnoverPenalty + sellCost) / curvature;
        var upper := (reward - turnoverPenalty - buyCost) / curvature;
        corners
        + (if 0.0 <= lower <= Min(maxWeight, current) then [lower] else [])
        + (if Max(0.0, current) <= upper <= maxWeight then [upper] else [])
      else
        corners
    }

    /** Python's max with key (objective, value): ties go to the larger weight. */
    function BestOf(candidates: seq<real>): real
      requires candidates != []
    {
      if |candidates| == 1 then candidates[0]
      else
        var rest := BestOf(candidates[1..]);
        var first := candidates[0];
        if Objective(first) > Objective(rest) || (Objective(first) == Objective(rest) && first > rest)
        then first else rest
    }

    function Optimum(): real {
      Clip(BestOf(Candidates()))
    }

    ghost predicate InRange(w: real) { 0.0 <= w <= maxWeight }

    ghost predicate IsGlobalMaximum(best: real) {
      InRange(best) && forall w :: InRange(w) ==> Objective(w) <= Objective(best)
    }

    function Shape(): Piecewise {
      Piecewise(Curvature(), reward - turnoverPenalty - buyCost, reward + turnoverPenalty + sellCost,
                current, maxWeight)
    }
  }

  /** The objective up to a constant: two linear slopes meeting at the held weight, less half the
      curvature times the squared weight. */
  datatype Piecewise = Piecewise(c: real, buySlope: real, sellSlope: real, held: real, cap: real) {

    predicate Valid() {
      c >= 0.0 && buySlope <= sellSlope && sellSlope > 0.0 && 0.0 <= held && 0.0 <= cap
    }

    function Value(w: real): real {
      Parabola(if w >= held then buySlope else sellSlope, c, held, w)
    }

    ghost predicate InRange(w: real) { 0.0 <= w <= cap }

    /** The buy slope vanishes strictly between the held weight and the cap. */
    predicate HasInteriorBuyPoint() {
      c * held < buySlope < c * cap
    }

    function Lower(): real requires c > 0.0 { sellSlope / c }

    function Upper(): real requires c > 0.0 { buySlope / c }

    /** Independent description of the optimum: buy up to the upper stationary point, sell down to
        the lower one, otherwise do not trade. */
    function ClosedForm(): real
      requires c > 0.0
    {
      if held < cap && Upper() > held then Min(Upper(), cap)
      else Min(Min(cap, held), Lower())
    }
  }

  function Parabola(a: real, c: real, origin: real, w: real): real {
    a * (w - origin) - 0.5 * (c * (w * w))
  }

  function Margin(c: real, best: real, w: real): real {
    0.5 * (c * ((w - best) * (w - best)))
  }

  // ---------------------------------------------------------------- arithmetic of parabolas

  lemma ProductSign(x: real, y: real)
    ensures x >= 0.0 && y <= 0.0 ==> x * y <= 0.0
    ensures x <= 0.0 && y >= 0.0 ==> x * y <= 0.0
    ensures x >= 0.0 && y >= 0.0 ==> x * y >= 0.0
    ensures x <= 0.0 && y <= 0.0 ==> x * y >= 0.0
    ensures x > 0.0 && y > 0.0 ==> x * y > 0.0
    ensures x < 0.0 && y < 0.0 ==> x * y > 0.0
  {
  }

  lemma QuotientBounds(n: real, c: real, x: real)
    requires c > 0.0
    ensures c * (n / c) == n
    ensures n / c > x <==> n > c * x
    ensures n / c < x <==> n < c * x
  {
    var q := n / c;
    assert q * c == n;
    ProductSign(q - x, c);
    ProductSign(x - q, c);
    assert (q - x) * c == n - c * x;
    assert (x - q) * c == c * x - n;
  }

  lemma QuotientAntitone(n: real, c: real, d: real)
    requires n >= 0.0 && 0.0 < c <= d
    ensures n / d <= n / c
  {
    QuotientBounds(n, d, n / c);
    QuotientBounds(n, c, 0.0);
    ProductSign(d - c, n / c);
    assert d * (n / c) == n + (d - c) * (n / c);
  }

  /** Moving from one point of a parabola to another, seen from a third. */
  lemma Shift(a: real, c: real, origin: real, mid: real, slope: real, from: real, to: real)
    requires slope == a - c * mid
    ensures Parabola(a, c, origin, to)
            == Parabola(a, c, origin, from) + (to - from) * slope
               + Margin(c, mid, from) - Margin(c, mid, to)
  {
    var cm := c * mid;
    ShiftSquare(c, mid, from);
    ShiftSquare(c, mid, to);
    assert (to - from) * slope == to * a - from * a - to * cm + from * cm;
  }

  lemma ShiftSquare(c: real, mid: real, w: real)
    ensures Margin(c, mid, w) == 0.5 * (c * (w * w)) - w * (c * mid) + 0.5 * (c * (mid * mid))
  {
    assert (w - mid) * (w - mid) == w * w - 2.0 * (w * mid) + mid * mid;
    assert c * (w * mid) == w * (c * mid);
  }

  lemma MarginBounds(c: real, mid: real, w: real)
    requires c >= 0.0
    ensures Margin(c, mid, w) >= 0.0
    ensures -0.5 <= w - mid <= 0.5 ==> Margin(c, mid, w) <= 0.125 * c
  {
    var d := w - mid;
    ProductSign(d, d);
    ProductSign(c, d * d);
    if -0.5 <= d <= 0.5 {
      ProductSign(0.5 - d, 0.5 + d);
      assert (0.5 - d) * (0.5 + d) == 0.25 - d * d;
      ProductSign(c, 0.25 - d * d);
      assert c * (0.25 - d * d) == 0.25 * c - c * (d * d);
    }
  }

  /** A point is the strict maximum of a parabola when the slope there points towards it. */
  lemma SlopeTest(a: real, c: real, origin: real, best: real, pull: real, w: real)
    requires pull == a - c * best
    requires (w <= best && pull >= 0.0) || (w >= best && pull <= 0.0)
    ensures Parabola(a, c, origin, w) <= Parabola(a, c, origin, best) - Margin(c, best, w)
  {
    ProductSign(w - best, pull);
    Shift(a, c, origin, best, pull, best, w);
  }

  lemma SteeperSlope(a: real, b: real, c: real, origin: real, w: real)
    requires (w >= origin && a <= b) || (w <= origin && a >= b)
    ensures Parabola(a, c, origin, w) <= Parabola(b, c, origin, w)
  {
    ProductSign(a - b, w - origin);
    assert (a - b) * (w - origin) == a * (w - origin) - b * (w - origin);
  }

  /** Moving away from the end that the slope in the middle points to gains at most c/8. */
  lemma ChordHalf(a: real, c: real, origin: real, mid: real, slope: real, end: real, w: real)
    requires 0.0 <= c && -0.5 <= end - mid <= 0.5 && slope == a - c * mid
    requires (w <= end && slope >= 0.0) || (w >= end && slope <= 0.0)
    ensures Parabola(a, c, origin, w) <= Parabola(a, c, origin, end) + 0.125 * c
  {
    hide Parabola, Margin;
    ProductSign(w - end, slope);
    Shift(a, c, origin, mid, slope, end, w);
    MarginBounds(c, mid, end);
    MarginBounds(c, mid, w);
  }

  /** A parabola opening downwards exceeds the better end of a unit interval by at most c/8. */
  lemma ChordBound(a: real, c: real, origin: real, x: real, y: real, w: real)
    requires 0.0 <= c && x <= w <= y <= x + 1.0
    ensures Parabola(a, c, origin, w)
            <= Max(Parabola(a, c, origin, x), Parabola(a, c, origin, y)) + 0.125 * c
  {
    var mid := 0.5 * (x + y);
    var slope := a - c * mid;
    ChordHalf(a, c, origin, mid, slope, if slope >= 0.0 then y else x, w);
  }

  // ---------------------------------------------------------------- optimisation of the shape

  /** The subgradient test: a slope between the two sides that points towards the point. */
  lemma GrowthFrom(s: Piecewise, best: real, slope: real, pull: real, w: real)
    requires s.Valid() && s.InRange(best) && s.InRange(w)
    requires s.buySlope <= slope <= s.sellSlope
    requires best > s.held ==> slope == s.buySlope
    requires best < s.held ==> slope == s.sellSlope
    requires pull == slope - s.c * best
    requires (w <= best && pull >= 0.0) || (w >= best && pull <= 0.0)
    ensures s.Value(w) <= s.Value(best) - Margin(s.c, best, w)
  {
    SlopeTest(slope, s.c, s.held, best, pull, w);
    SteeperSlope(if w >= s.held then s.buySlope else s.sellSlope, slope, s.c, s.held, w);
    if best == s.held {
      SteeperSlope(slope, s.buySlope, s.c, s.held, best);
    }
  }

  /** Where the closed form sits: inside a side its slope is balanced or the range ends. */
  lemma ClosedFormSlope(s: Piecewise) returns (slope: real, pull: real)
    requires s.Valid() && s.c > 0.0
    ensures var best := s.ClosedForm();
            && s.InRange(best) && pull == slope - s.c * best
            && s.buySlope <= slope <= s.sellSlope
            && (best > s.held ==> slope == s.buySlope)
            && (best < s.held ==> slope == s.sellSlope)
            && (best < s.cap ==> pull == 0.0)
            && pull >= 0.0
  {
    var best := s.ClosedForm();
    QuotientBounds(s.buySlope, s.c, s.held);
    QuotientBounds(s.buySlope, s.c, best);
    QuotientBounds(s.sellSlope, s.c, 0.0);
    QuotientBounds(s.sellSlope, s.c, best);
    if s.held < s.cap && s.Upper() > s.held {
      slope := s.buySlope;
    } else if best < s.held || best == s.cap {
      slope := s.sellSlope;
    } else {
      slope := s.c * best;
    }
    pull := slope - s.c * best;
  }

  /** The closed form beats every weight by half the curvature times the squared distance. */
  lemma ClosedFormGrowth(s: Piecewise, best: real, w: real)
    requires s.Valid() && s.c > 0.0 && s.InRange(w) && best == s.ClosedForm()
    ensures s.InRange(best)
    ensures s.Value(w) <= s.Value(best) - Margin(s.c, best, w)
  {
    var slope, pull := ClosedFormSlope(s);
    GrowthFrom(s, best, slope, pull, w);
  }

  lemma ClosedFormIsStrict(s: Piecewise, best: real, w: real)
    requires s.Valid() && s.c > 0.0 && s.InRange(w) && best == s.ClosedForm()
    ensures s.Value(w) <= s.Value(best)
    ensures s.Value(w) == s.Value(best) ==> w == best
  {
    ClosedFormGrowth(s, best, w);
    PositiveMargin(s.c, best, w);
  }

  lemma PositiveMargin(c: real, best: real, w: real)
    requires c >= 0.0
    ensures Margin(c, best, w) >= 0.0
    ensures c > 0.0 && w != best ==> Margin(c, best, w) > 0.0
  {
    var square := (w - best) * (w - best);
    ProductSign(w - best, w - best);
    assert w != best ==> square > 0.0;
    ProductSign(c, square);
  }

  // ---------------------------------------------------------------- the code's choice

  lemma {:induction false} BestOfIsBest(p: Problem, candidates: seq<real>)
    requires candidates != []
    ensures p.BestOf(candidates) in candidates
    ensures forall c :: c in candidates ==> p.Objective(c) <= p.Objective(p.BestOf(candidates))
  {
    if |candidates| > 1 {
      BestOfIsBest(p, candidates[1..]);
    }
  }

  lemma ShapeValid(p: Problem)
    requires p.Valid()
    ensures p.Shape().Valid()
  {
    ProductSign(p.riskAversion, p.normalizedRisk);
    ProductSign(p.riskAversion * p.normalizedRisk, p.normalizedRisk);
  }

  /** The shape is the objective up to a constant. */
  lemma ObjectiveShape(p: Problem, w: real)
    requires p.Valid() && p.InRange(w)
    ensures p.Objective(w)
            == p.Shape().Value(w) + (p.reward * p.current - p.turnoverPenalty * p.other)
  {
    var r, n, k := p.riskAversion, p.normalizedRisk, w - p.current;
    var exposure := n * w;
    assert r * (exposure * exposure) == (r * n * n) * (w * w) by {
      assert exposure * exposure == (n * n) * (w * w);
      assert r * ((n * n) * (w * w)) == (r * n * n) * (w * w);
    }
    assert p.reward * w == p.reward * p.current + p.reward * k;
    assert p.turnoverPenalty * (p.other + Abs(k))
        == p.turnoverPenalty * p.other + p.turnoverPenalty * Abs(k);
    assert p.turnoverPenalty * (-k) == -(p.turnoverPenalty * k);
    assert p.sellCost * (-k) == -(p.sellCost * k);
    assert (p.reward - p.turnoverPenalty - p.buyCost) * k
        == p.reward * k - p.turnoverPenalty * k - p.buyCost * k;
    assert (p.reward + p.turnoverPenalty + p.sellCost) * k
        == p.reward * k + p.turnoverPenalty * k + p.sellCost * k;
  }

  lemma CandidatesInRange(p: Problem)
    requires p.Valid()
    ensures forall c :: c in p.Candidates() ==> p.InRange(c)
    ensures [0.0, p.maxWeight, p.Clip(p.current)] <= p.Candidates()
  {
  }

  lemma ClosedFormIsCandidate(p: Problem)
    requires p.Valid() && p.Curvature() > TINY
    ensures p.Shape().ClosedForm() in p.Candidates()
  {
    var s := p.Shape();
    ShapeValid(p);
    CandidatesInRange(p);
    QuotientBounds(s.sellSlope, s.c, 0.0);
    var best, tail := s.ClosedForm(), p.Candidates();
    assert p.maxWeight == tail[1] && p.Clip(p.current) == tail[2];
    if s.held < s.cap && s.Upper() > s.held {
      if best != s.cap {
        assert tail[|tail| - 1] == best;
      }
    } else if best != p.Clip(p.current) {
      assert tail[3] == best;
    }
  }

  /** Five candidate points suffice: the code's argmax over them is the closed form. */
  lemma OptimumIsClosedForm(p: Problem)
    requires p.Valid() && p.Curvature() > TINY
    ensures p.Optimum() == p.Shape().ClosedForm()
  {
    var best, form := p.BestOf(p.Candidates()), p.Shape().ClosedForm();
    ShapeValid(p);
    BestOfIsBest(p, p.Candidates());
    CandidatesInRange(p);
    ClosedFormIsCandidate(p);
    ClosedFormIsStrict(p.Shape(), form, best);
    ObjectiveShape(p, best);
    ObjectiveShape(p, form);
  }

  /** Global optimality with a quadratic margin. */
  lemma OptimumGrowth(p: Problem, w: real)
    requires p.Valid() && p.Curvature() > TINY && p.InRange(w)
    ensures p.InRange(p.Optimum())
    ensures p.Objective(w) <= p.Objective(p.Optimum()) - Margin(p.Curvature(), p.Optimum(), w)
  {
    ShapeValid(p);
    OptimumIsClosedForm(p);
    ClosedFormGrowth(p.Shape(), p.Optimum(), w);
    ObjectiveShape(p, w);
    ObjectiveShape(p, p.Optimum());
  }

  /** The choice is the one and only maximiser over all weights, not only over the candidates. */
  lemma OptimumIsUniqueMaximum(p: Problem, best: real)
    requires p.Valid() && p.Curvature() > TINY
    ensures p.IsGlobalMaximum(best) <==> best == p.Optimum()
  {
    OptimumGrowth(p, p.maxWeight);
    forall w | p.InRange(w)
      ensures p.Objective(w) <= p.Objective(p.Optimum())
      ensures p.Objective(w) == p.Objective(p.Optimum()) ==> w == p.Optimum()
    {
      OptimumGrowth(p, w);
      PositiveMargin(p.Curvature(), p.Optimum(), w);
    }
  }

  /** Above the threshold more risk never means more exposure. */
  lemma CurvedOptimumFalls(p: Problem, riskier: Problem)
    requires p.Valid() && riskier.Valid()
    requires p.Curvature() > TINY && riskier.Curvature() > TINY
    requires riskier == p.(normalizedRisk := riskier.normalizedRisk)
    requires p.normalizedRisk <= riskier.normalizedRisk
    ensures riskier.Optimum() <= p.Optimum()
  {
    OptimumIsClosedForm(p);
    OptimumIsClosedForm(riskier);
    ShapeFlattens(p, riskier);
    ClosedFormFalls(p.Shape(), riskier.Shape());
  }

  lemma ShapeFlattens(p: Problem, riskier: Problem)
    requires p.Valid() && riskier == p.(normalizedRisk := riskier.normalizedRisk)
    requires p.normalizedRisk <= riskier.normalizedRisk
    ensures p.Shape().Valid() && p.Shape().c <= riskier.Shape().c
    ensures riskier.Shape() == p.Shape().(c := riskier.Shape().c)
  {
    ShapeValid(p);
    CurvatureGrowsWithRisk(p.riskAversion, p.normalizedRisk, riskier.normalizedRisk);
  }

  lemma CurvatureGrowsWithRisk(aversion: real, risk: real, riskier: real)
    requires aversion >= 0.0 && 0.0 <= risk <= riskier
    ensures aversion * risk * risk <= aversion * riskier * riskier
  {
    ProductSign(aversion, riskier - risk);
    assert aversion * (riskier - risk) == aversion * riskier - aversion * risk;
    ProductSign(aversion * riskier - aversion * risk, riskier);
    ProductSign(aversion, risk);
    ProductSign(aversion * risk, riskier - risk);
    assert (aversion * riskier - aversion * risk) * riskier
        == aversion * riskier * riskier - aversion * risk * riskier;
    assert aversion * risk * (riskier - risk) == aversion * risk * riskier - aversion * risk * risk;
  }

  lemma ClosedFormFalls(s: Piecewise, t: Piecewise)
    requires s.Valid() && 0.0 < s.c <= t.c && t == s.(c := t.c)
    ensures t.ClosedForm() <= s.ClosedForm()
  {
    QuotientAntitone(s.sellSlope, s.c, t.c);
    if s.buySlope >= 0.0 {
      QuotientAntitone(s.buySlope, s.c, t.c);
    } else {
      QuotientBounds(s.buySlope, s.c, 0.0);
      QuotientBounds(s.buySlope, t.c, 0.0);
    }
  }

  /** The no-trade band: a held weight below the cap is kept exactly when it lies between the two
      stationary points; at the cap only the lower one matters, above it the weight must change. */
  lemma NoTradeBand(p: Problem)
    requires p.Valid() && p.Curvature() > TINY
    ensures p.Optimum() == p.current
            <==> p.current <= p.maxWeight && p.current <= p.Shape().Lower()
                 && (p.current == p.maxWeight || p.Shape().Upper() <= p.current)
  {
    OptimumIsClosedForm(p);
  }

  // ---------------------------------------------------------------- the low-curvature branch

  /** The best of the two corners around a weight is within c/8 of it. */
  lemma CornersAreClose(s: Piecewise, mid: real, w: real)
    requires s.Valid() && s.InRange(w) && s.cap <= 1.0 && mid == Min(s.cap, s.held)
    ensures var lo := if w <= mid then 0.0 else mid; var hi := if w <= mid then mid else s.cap;
            s.Value(w) <= Max(s.Value(lo), s.Value(hi)) + 0.125 * s.c
  {
    if w <= mid {
      ChordBound(s.sellSlope, s.c, s.held, 0.0, mid, w);
      KinkValue(s, w);
      KinkValue(s, 0.0);
      KinkValue(s, mid);
    } else {
      ChordBound(s.buySlope, s.c, s.held, mid, s.cap, w);
    }
  }

  /** Below the kink, and at it, the sell slope gives the value. */
  lemma KinkValue(s: Piecewise, w: real)
    requires w <= s.held
    ensures s.Value(w) == Parabola(s.sellSlope, s.c, s.held, w)
  {
  }

  /** At most this threshold only the three corners are tried, and at most 1.25e-13 is lost. */
  lemma LowCurvatureError(p: Problem, w: real)
    requires p.Valid() && p.Curvature() <= TINY && p.InRange(w)
    ensures p.InRange(p.Optimum())
    ensures p.Objective(w) <= p.Objective(p.Optimum()) + LOW_CURVATURE_LOSS
  {
    var corners, mid := p.Candidates(), p.Clip(p.current);
    ShapeValid(p);
    BestOfIsBest(p, corners);
    CandidatesInRange(p);
    var lo := if w <= mid then 0.0 else mid;
    var hi := if w <= mid then mid else p.maxWeight;
    assert lo in corners && hi in corners by {
      assert corners[0] == 0.0 && corners[1] == p.maxWeight && corners[2] == mid;
    }
    ObjectiveShape(p, w);
    ObjectiveShape(p, lo);
    ObjectiveShape(p, hi);
    CornersAreClose(p.Shape(), mid, w);
  }

  /** The loss bound is tight: this problem loses exactly 1.25e-13 against weight one half. */
  lemma LowCurvatureErrorIsReached()
    ensures var p := Problem(TINY, TINY, 1.0, 0.5 * TINY, 1.0, 0.0, 0.0, 0.0, 0.0);
            && p.Valid() && p.Curvature() == TINY
            && p.Objective(0.5) == p.Objective(p.Optimum()) + LOW_CURVATURE_LOSS
  {
    var p := Problem(TINY, TINY, 1.0, 0.5 * TINY, 1.0, 0.0, 0.0, 0.0, 0.0);
    assert p.Candidates() == [0.0, 1.0, 0.0];
    assert p.Objective(0.0) == 0.0 && p.Objective(1.0) == 0.0;
    BestOfIsBest(p, p.Candidates());
  }

  /** Exactly when the corner rule loses something: the buy side has an interior stationary point. */
  lemma LowCurvatureExact(p: Problem)
    requires p.Valid() && p.Curvature() <= TINY
    ensures p.IsGlobalMaximum(p.Optimum()) <==> !p.Shape().HasInteriorBuyPoint()
  {
    OptimumInRange(p);
    if p.Shape().HasInteriorBuyPoint() {
      var u := InteriorBeatsCorners(p);
    } else {
      forall w | p.InRange(w)
        ensures p.Objective(w) <= p.Objective(p.Optimum())
      {
        CornerIsMaximum(p, w);
      }
    }
  }

  lemma OptimumInRange(p: Problem)
    requires p.Valid()
    ensures p.InRange(p.Optimum())
  {
  }

  /** An interior stationary point on the buy side is strictly better than every corner. */
  lemma InteriorIsStrict(s: Piecewise, w: real)
    requires s.Valid() && s.HasInteriorBuyPoint() && s.InRange(w)
    requires w == 0.0 || w == s.cap || w == Min(s.cap, s.held)
    ensures s.c > 0.0 && s.InRange(s.ClosedForm()) && s.Value(w) < s.Value(s.ClosedForm())
  {
    ProductSign(s.c, s.cap - s.held);
    assert s.c * (s.cap - s.held) == s.c * s.cap - s.c * s.held;
    QuotientBounds(s.buySlope, s.c, s.held);
    QuotientBounds(s.buySlope, s.c, s.cap);
    ClosedFormIsStrict(s, s.ClosedForm(), w);
    ClosedFormGrowth(s, s.ClosedForm(), w);
  }

  lemma InteriorBeatsCorners(p: Problem) returns (better: real)
    requires p.Valid() && p.Curvature() <= TINY && p.Shape().HasInteriorBuyPoint()
    ensures p.InRange(better) && p.Objective(better) > p.Objective(p.Optimum())
  {
    var s, best := p.Shape(), p.Optimum();
    ShapeValid(p);
    BestOfIsBest(p, p.Candidates());
    assert best == 0.0 || best == p.maxWeight || best == Min(p.maxWeight, p.current);
    InteriorIsStrict(s, best);
    better := s.ClosedForm();
    ObjectiveShape(p, best);
    ObjectiveShape(p, better);
  }

  /** Without such a point one corner dominates the whole range. */
  lemma CornerDominates(s: Piecewise, w: real) returns (corner: real)
    requires s.Valid() && s.InRange(w) && s.cap <= 1.0 && s.c <= s.sellSlope
    requires !s.HasInteriorBuyPoint()
    ensures corner == s.cap || corner == Min(s.cap, s.held)
    ensures s.Value(w) <= s.Value(corner)
  {
    hide Piecewise.Value, Parabola, Margin;
    var atHeld, atCap := s.c * s.held, s.c * s.cap;
    if s.held < s.cap && s.buySlope > atHeld {
      corner := s.cap;
      GrowthFrom(s, corner, s.buySlope, s.buySlope - atCap, w);
    } else if s.held < s.cap && w >= s.held {
      corner := s.held;
      GrowthFrom(s, corner, s.buySlope, s.buySlope - atHeld, w);
    } else {
      corner := Min(s.cap, s.held);
      var room, pull := 1.0 - corner, s.sellSlope - s.c * corner;
      ProductSign(s.c, room);
      assert s.c * room == s.c - s.c * corner;
      GrowthFrom(s, corner, s.sellSlope, pull, w);
    }
    PositiveMargin(s.c, corner, w);
  }

  lemma CornerIsMaximum(p: Problem, w: real)
    requires p.Valid() && p.Curvature() <= TINY && p.InRange(w) && !p.Shape().HasInteriorBuyPoint()
    ensures p.Objective(w) <= p.Objective(p.Optimum())
  {
    var corners := p.Candidates();
    ShapeValid(p);
    BestOfIsBest(p, corners);
    CandidatesInRange(p);
    assert corners[1] == p.maxWeight && corners[2] == p.Clip(p.current);
    var corner := CornerDominates(p.Shape(), w);
    ObjectiveShape(p, w);
    ObjectiveShape(p, corner);
  }

  // ---------------------------------------------------------------- more risk

  /** Below the kink the objective rises, so at most the threshold the choice is between the held weight
      and the cap. */
  lemma RisesToTheKink(s: Piecewise, w: real)
    requires s.Valid() && s.c <= s.sellSlope && 0.0 < w <= 1.0 && w <= s.held
    ensures s.Value(0.0) < s.Value(w)
  {
    var drop := 0.5 * (s.c * (w * w));
    ProductSign(s.c, w);
    ProductSign(1.0 - w, s.c * w);
    assert s.c * (w * w) == (s.c * w) * w;
    assert (1.0 - w) * (s.c * w) == s.c * w - (s.c * w) * w;
    ProductSign(w, s.sellSlope - s.c);
    assert w * (s.sellSlope - s.c) == w * s.sellSlope - s.c * w;
    ProductSign(w, s.sellSlope);
    KinkValue(s, 0.0);
    KinkValue(s, w);
  }

  /** The weight at or below the threshold: the held weight if the cap is worse, and the cap otherwise. */
  lemma LowCurvatureOptimum(p: Problem)
    requires p.Valid() && p.Curvature() <= TINY
    ensures p.Optimum() == if p.current < p.maxWeight && p.Objective(p.maxWeight) < p.Objective(p.current)
                           then p.current else p.maxWeight
  {
    var mid := p.Clip(p.current);
    ShapeValid(p);
    if mid > 0.0 {
      RisesToTheKink(p.Shape(), mid);
      ObjectiveShape(p, 0.0);
      ObjectiveShape(p, mid);
    }
    assert mid > 0.0 ==> p.Objective(0.0) < p.Objective(mid);
    hide Problem.Objective, Problem.Curvature;
    assert p.Candidates() == [0.0, p.maxWeight, mid];
    assert [0.0, p.maxWeight, mid][1..] == [p.maxWeight, mid] && [p.maxWeight, mid][1..] == [mid];
    var best := p.BestOf([p.maxWeight, mid]);
    assert p.BestOf([mid]) == mid;
  }

  /** What the cap gains over the held weight falls with the curvature. */
  lemma GainFalls(s: Piecewise, t: Piecewise)
    requires s.Valid() && s.c <= t.c && t == s.(c := t.c) && s.held <= s.cap
    ensures t.Value(t.cap) - t.Value(t.held) <= s.Value(s.cap) - s.Value(s.held)
  {
    var a, held, cap := s.buySlope, s.held, s.cap;
    assert s.Value(cap) == Parabola(a, s.c, held, cap) && s.Value(held) == Parabola(a, s.c, held, held);
    assert t.Value(cap) == Parabola(a, t.c, held, cap) && t.Value(held) == Parabola(a, t.c, held, held);
    hide Parabola, Piecewise.Value;
    ParabolaGain(a, s.c, t.c, held, cap);
  }

  lemma ParabolaGain(a: real, c: real, d: real, held: real, cap: real)
    requires c <= d && 0.0 <= held <= cap
    ensures Parabola(a, d, held, cap) - Parabola(a, d, held, held)
            <= Parabola(a, c, held, cap) - Parabola(a, c, held, held)
  {
    var x, y, gain := held * held, cap * cap, a * (cap - held);
    assert a * (held - held) == 0.0;
    SquareGrows(held, cap);
    WeighedGrows(c, d, x, y);
  }

  lemma SquareGrows(x: real, y: real)
    requires 0.0 <= x <= y
    ensures x * x <= y * y
  {
  }

  lemma WeighedGrows(c: real, d: real, x: real, y: real)
    requires c <= d && x <= y
    ensures c * y - c * x <= d * y - d * x
  {
    ProductSign(d - c, y - x);
    assert (d - c) * (y - x) == d * y - c * y - d * x + c * x;
  }

  /** The one way in which more risk can mean more exposure: the lower risk is at or below the curvature
      threshold and keeps the held weight, because the cap alone is worse; the higher one is above it,
      and finds the stationary point in between. */
  predicate LowerRiskMissesThePoint(p: Problem, riskier: Problem) {
    && p.Curvature() <= TINY < riskier.Curvature()
    && p.current < p.maxWeight && p.Objective(p.maxWeight) < p.Objective(p.current)
    && riskier.Shape().buySlope > riskier.Shape().c * riskier.current
  }

  /** More risk never means more exposure, except exactly in that case. */
  lemma OptimumFallsWithRisk(p: Problem, riskier: Problem)
    requires p.Valid() && riskier.Valid()
    requires riskier == p.(normalizedRisk := riskier.normalizedRisk)
    requires p.normalizedRisk <= riskier.normalizedRisk
    ensures riskier.Optimum() <= p.Optimum() <==> !LowerRiskMissesThePoint(p, riskier)
  {
    hide Problem.Objective, Problem.Optimum;
    ShapeFlattens(p, riskier);
    OptimumInRange(riskier);
    if p.Curvature() > TINY {
      CurvedOptimumFalls(p, riskier);
    } else if riskier.Curvature() > TINY {
      var t := riskier.Shape();
      LowCurvatureOptimum(p);
      OptimumIsClosedForm(riskier);
      QuotientBounds(t.buySlope, t.c, t.held);
    } else {
      LowCurvatureOptimum(p);
      LowCurvatureOptimum(riskier);
      if p.current < p.maxWeight {
        CapGainFalls(p, riskier);
      }
    }
  }

  lemma CapGainFalls(p: Problem, riskier: Problem)
    requires p.Valid() && riskier.Valid() && riskier == p.(normalizedRisk := riskier.normalizedRisk)
    requires p.normalizedRisk <= riskier.normalizedRisk && p.current <= p.maxWeight
    ensures riskier.Objective(p.maxWeight) - riskier.Objective(p.current)
            <= p.Objective(p.maxWeight) - p.Objective(p.current)
  {
    hide Problem.Objective, Piecewise.Value;
    ShapeFlattens(p, riskier);
    GainFalls(p.Shape(), riskier.Shape());
    ObjectiveShape(p, p.current);
    ObjectiveShape(p, p.maxWeight);
    ObjectiveShape(riskier, p.current);
    ObjectiveShape(riskier, p.maxWeight);
  }

  // ---------------------------------------------------------------- the decision around it

  datatype Config = Config(
    cvarPenalty: real, turnoverPenalty: real, signalScale: real, maxAssetWeight: real,
    slippageBps: real, commissionRate: real, catFeePerShare: real, secFeeRate: real,
    tafFeePerShare: real, lookbackDays: int)

  /** What the target's frame says at the decision date. */
  datatype Market = Market(close: Option<real>, currentScenarios: nat, referenceScenarios: nat,
                           currentCvar: Option<real>, referenceCvar: Option<real>)

  datatype Status = BaseCash | MissingMarketData | InsufficientHistory | InvalidRisk
                  | Optimal | OptimalFullExposure | OptimalCash

  datatype Decision = Decision(weights: seq<real>, cashWeight: real, turnover: real, status: Status)

  datatype Error = IndexError

  /** Weights read from the book: negative ones become zero, the rest are scaled to sum to one. */
  function SafeCurrentWeights(symbols: seq<string>, book: map<string, real>): seq<real> {
    var values := RawWeights(symbols, book);
    var total := Sum(values);
    if total <= 0.0 then OneHot(|symbols| + 1, |symbols|, 1.0)
    else Scale(values, total)
  }

  function Scale(values: seq<real>, total: real): (scaled: seq<real>)
    requires total > 0.0
    ensures |scaled| == |values|
  {
    if values == [] then [] else [Ratio(values[0], total)] + Scale(values[1..], total)
  }

  function RawWeights(symbols: seq<string>, book: map<string, real>): (raw: seq<real>)
    ensures |raw| == |symbols| + 1 && forall i :: 0 <= i < |raw| ==> raw[i] >= 0.0
  {
    if symbols == [] then [RawWeight("CASH", book)]
    else [RawWeight(symbols[0], book)] + RawWeights(symbols[1..], book)
  }

  function RawWeight(key: string, book: map<string, real>): real {
    Max(0.0, if key in book then book[key] else 0.0)
  }

  function OneHot(n: nat, index: int, w: real): (vector: seq<real>)
    ensures |vector| == n
    ensures forall i :: 0 <= i < n ==> vector[i] == if i == index then w else 0.0
  {
    seq(n, i => if i == index then w else 0.0)
  }

  function Turnover(target: seq<real>, current: seq<real>): real
    requires |target| <= |current|
  {
    Sum(seq(|target|, i requires 0 <= i < |target| => Abs(target[i] - current[i])))
  }

  function TradeCostRates(close: Option<real>, config: Config): (real, real) {
    if close.None? || close.value <= 0.0 then (0.0, 0.0)
    else
      var slippage := Max(0.0, config.slippageBps) / 10000.0;
      var commission := Max(0.0, config.commissionRate);
      var cat := Max(0.0, config.catFeePerShare) / close.value;
      var sec := Max(0.0, config.secFeeRate);
      var taf := Max(0.0, config.tafFeePerShare) / close.value;
      (slippage + commission + cat, slippage + commission + cat + sec + taf)
  }

  predicate EnoughHistory(m: Market, config: Config) {
    var currentLookback := MaxInt(252, MaxInt(20, config.lookbackDays));
    var referenceLookback := MaxInt(756, currentLookback * 3);
    && m.currentScenarios >= MaxInt(60, MinInt(126, currentLookback / 2))
    && m.referenceScenarios >= MaxInt(126, MinInt(252, referenceLookback / 3))
  }

  predicate ValidRisk(m: Market) {
    m.currentCvar.Some? && m.referenceCvar.Some? && m.referenceCvar.value > TINY
  }

  function BuildProblem(m: Market, current: seq<real>, index: nat, config: Config): Problem
    requires index + 1 < |current| && ValidRisk(m)
  {
    var rates := TradeCostRates(m.close, config);
    Problem(
      Max(TINY, config.signalScale), Max(0.0, config.cvarPenalty),
      Max(0.0, m.currentCvar.value / m.referenceCvar.value), Max(0.0, config.turnoverPenalty),
      Min(1.0, Max(0.0, config.maxAssetWeight)), current[index],
      Sum(current[..index] + current[index + 1..|current| - 1]), rates.0, rates.1)
  }

  /** The base policy's target, unscaled. Indexing the symbol table fails for an unknown position. */
  function BaseTarget(n: nat, current: seq<real>, target: int, status: Status): Result<Decision, Error>
    requires |current| == n + 1
  {
    if target <= 0 then
      var zeros := OneHot(n, -1, 0.0);
      Ok(Decision(zeros, 1.0, Turnover(zeros, current), status))
    else if target > n then Err(IndexError)
    else
      var weights := OneHot(n, target - 1, 1.0);
      Ok(Decision(weights, 0.0, Turnover(weights, current), status))
  }

  /** frames holds the symbols whose frame has a row at the decision date. */
  function Optimize(target: int, symbols: seq<string>, frames: map<string, Market>,
                    book: map<string, real>, config: Config): Result<Decision, Error>
  {
    var n, current := |symbols|, SafeCurrentWeights(symbols, book);
    if target <= 0 then BaseTarget(n, current, 0, BaseCash)
    else if target > n then BaseTarget(n, current, target, MissingMarketData)
    else if symbols[target - 1] !in frames then BaseTarget(n, current, target, MissingMarketData)
    else
      var m := frames[symbols[target - 1]];
      if !EnoughHistory(m, config) then BaseTarget(n, current, target, InsufficientHistory)
      else if !ValidRisk(m) then BaseTarget(n, current, target, InvalidRisk)
      else
        var p := BuildProblem(m, current, target - 1, config);
        var best := p.Optimum();
        var weights := OneHot(n, target - 1, best);
        var status := if best >= p.maxWeight - STATUS_TOLERANCE then OptimalFullExposure
                      else if best <= STATUS_TOLERANCE then OptimalCash
                      else Optimal;
        Ok(Decision(weights, Max(0.0, 1.0 - best), Turnover(weights, current), status))
  }

  lemma RatioFacts(a: real, b: real, total: real)
    requires total > 0.0
    ensures Ratio(a + b, total) == Ratio(a, total) + Ratio(b, total)
    ensures Ratio(0.0, total) == 0.0
  {
  }

  lemma RatioSign(a: real, total: real)
    requires total > 0.0 && a >= 0.0
    ensures Ratio(a, total) >= 0.0 && Ratio(a, total) * total == a
  {
    var q := a / total;
    assert q * total == a;
    Cancel(q, 0.0, total);
  }

  lemma {:induction false} SumOfScale(values: seq<real>, total: real)
    requires total > 0.0 && forall i :: 0 <= i < |values| ==> values[i] >= 0.0
    ensures Sum(Scale(values, total)) == Ratio(Sum(values), total)
    ensures forall i :: 0 <= i < |values| ==> Scale(values, total)[i] >= 0.0
  {
    hide Ratio;
    if values == [] {
      RatioFacts(0.0, 0.0, total);
    } else {
      var rest := Scale(values[1..], total);
      SumOfScale(values[1..], total);
      RatioSign(values[0], total);
      RatioFacts(values[0], Sum(values[1..]), total);
      assert ([Ratio(values[0], total)] + rest)[1..] == rest;
    }
  }

  lemma ScaleFacts(values: seq<real>, total: real)
    requires total > 0.0 && forall i :: 0 <= i < |values| ==> values[i] >= 0.0
    ensures Sum(Scale(values, total)) * total == Sum(values)
    ensures forall i :: 0 <= i < |values| ==> Scale(values, total)[i] >= 0.0
  {
    hide Ratio;
    SumOfScale(values, total);
    SumNonNegative(values);
    RatioSign(Sum(values), total);
  }

  lemma Cancel(x: real, y: real, total: real)
    requires total > 0.0
    ensures x * total >= y * total ==> x >= y
    ensures x * total <= y * total ==> x <= y
  {
    ProductSign(x - y, total);
    assert (x - y) * total == x * total - y * total;
  }

  lemma {:induction false} SumOneHot(n: nat, index: int, w: real)
    ensures Sum(OneHot(n, index, w)) == if 0 <= index < n then w else 0.0
  {
    if n > 0 {
      assert OneHot(n, index, w)[1..] == OneHot(n - 1, index - 1, w);
      SumOneHot(n - 1, index - 1, w);
    }
  }

  /** The held weights are always a portfolio: non-negative, at most one each, summing to one. */
  lemma SafeCurrentWeightsArePortfolio(symbols: seq<string>, book: map<string, real>)
    ensures var w := SafeCurrentWeights(symbols, book);
            && |w| == |symbols| + 1 && Sum(w) == 1.0
            && forall i :: 0 <= i < |w| ==> 0.0 <= w[i] <= 1.0
  {
    var values, w := RawWeights(symbols, book), SafeCurrentWeights(symbols, book);
    var total := Sum(values);
    if total <= 0.0 {
      SumOneHot(|symbols| + 1, |symbols|, 1.0);
    } else {
      assert w == Scale(values, total);
      ScaleFacts(values, total);
      Cancel(Sum(w), 1.0, total);
      assert Sum(w) == 1.0;
      SumNonNegative(w);
    }
  }

  /** Each weight is its share of what the book holds, negative and missing entries counting as nothing. */
  lemma SafeCurrentWeightsAreShares(symbols: seq<string>, book: map<string, real>, i: nat)
    requires i <= |symbols|
    ensures var raw, w := RawWeights(symbols, book), SafeCurrentWeights(symbols, book);
            var key := if i < |symbols| then symbols[i] else "CASH";
            && |w| == |raw| == |symbols| + 1
            && raw[i] == (if key in book && book[key] > 0.0 then book[key] else 0.0)
            && w[i] == if Sum(raw) > 0.0 then Ratio(raw[i], Sum(raw)) else if i == |symbols| then 1.0 else 0.0
  {
    hide Ratio, Scale, OneHot, Sum, RawWeight;
    var raw, key := RawWeights(symbols, book), if i < |symbols| then symbols[i] else "CASH";
    RawWeightAt(symbols, book, i);
    RawWeightIs(key, book);
    hide RawWeights;
    OneHotAt(|symbols| + 1, |symbols|, 1.0, i);
    if Sum(raw) > 0.0 {
      ScaleAt(raw, Sum(raw), i);
    }
  }

  lemma RawWeightIs(key: string, book: map<string, real>)
    ensures RawWeight(key, book) == if key in book && book[key] > 0.0 then book[key] else 0.0
  {
  }

  lemma OneHotAt(n: nat, index: int, w: real, i: nat)
    requires i < n
    ensures OneHot(n, index, w)[i] == if i == index then w else 0.0
  {
  }

  lemma {:induction false} RawWeightAt(symbols: seq<string>, book: map<string, real>, i: nat)
    requires i <= |symbols|
    ensures RawWeights(symbols, book)[i] == RawWeight(if i < |symbols| then symbols[i] else "CASH", book)
  {
    if i > 0 {
      RawWeightAt(symbols[1..], book, i - 1);
    }
  }

  lemma {:induction false} ScaleAt(values: seq<real>, total: real, i: nat)
    requires total > 0.0 && i < |values|
    ensures Scale(values, total)[i] == Ratio(values[i], total)
  {
    hide Ratio;
    if i > 0 {
      ScaleAt(values[1..], total, i - 1);
    }
  }

  lemma OptimizedProblemIsValid(symbols: seq<string>, book: map<string, real>, m: Market, index: nat, config: Config)
    requires index < |symbols| && ValidRisk(m)
    ensures BuildProblem(m, SafeCurrentWeights(symbols, book), index, config).Valid()
  {
    var current := SafeCurrentWeights(symbols, book);
    SafeCurrentWeightsArePortfolio(symbols, book);
    SumNonNegative(current[..index] + current[index + 1..|current| - 1]);
    if m.close.Some? && m.close.value > 0.0 {
      QuotientBounds(Max(0.0, config.catFeePerShare), m.close.value, 0.0);
      QuotientBounds(Max(0.0, config.tafFeePerShare), m.close.value, 0.0);
    }
  }

  ghost predicate IsPortfolio(d: Decision, n: nat, held: int) {
    && |d.weights| == n && Sum(d.weights) + d.cashWeight == 1.0 && 0.0 <= d.cashWeight <= 1.0
    && forall i :: 0 <= i < n ==> 0.0 <= d.weights[i] <= 1.0 && (i != held ==> d.weights[i] == 0.0)
  }

  lemma OneHotPortfolio(n: nat, index: int, w: real, turnover: real, status: Status)
    requires 0.0 <= w <= 1.0 && (0 <= index < n || w == 0.0)
    ensures IsPortfolio(Decision(OneHot(n, index, w), 1.0 - w, turnover, status), n, index)
  {
    SumOneHot(n, index, w);
  }

  /** Every decision that is returned is a portfolio holding at most the target asset; a position
      outside the symbol table is the one input on which nothing is returned, although the source
      names a fallback status for it. */
  lemma OptimizeIsPortfolio(target: int, symbols: seq<string>, frames: map<string, Market>,
                            book: map<string, real>, config: Config)
    ensures var r := Optimize(target, symbols, frames, book, config);
            && (r.Err? <==> target > |symbols|)
            && (r.Ok? ==> IsPortfolio(r.value, |symbols|, if target <= 0 then -1 else target - 1))
  {
    var n, r := |symbols|, Optimize(target, symbols, frames, book, config);
    var current := SafeCurrentWeights(symbols, book);
    if r.Ok? {
      var d := r.value;
      if target <= 0 {
        OneHotPortfolio(n, -1, 0.0, d.turnover, d.status);
      } else if d.status.MissingMarketData? || d.status.InsufficientHistory? || d.status.InvalidRisk? {
        OneHotPortfolio(n, target - 1, 1.0, d.turnover, d.status);
      } else {
        var m := frames[symbols[target - 1]];
        OptimizedProblemIsValid(symbols, book, m, target - 1, config);
        var p := BuildProblem(m, current, target - 1, config);
        OptimumInRange(p);
        OneHotPortfolio(n, target - 1, p.Optimum(), d.turnover, d.status);
      }
    }
  }

  // ---------------------------------------------------------------- the decision is the best one

  /** What trading costs by the fees of the configuration: slippage, commission and CAT on everything that
      is traded, SEC and TAF on what is sold. */
  ghost function TradingCost(close: Option<real>, config: Config, bought: real, sold: real): real {
    if close.None? || close.value <= 0.0 then 0.0
    else
      var traded := bought + sold;
      Max(0.0, config.slippageBps) / 10000.0 * traded
      + Max(0.0, config.commissionRate) * traded
      + Max(0.0, config.catFeePerShare) / close.value * traded
      + Max(0.0, config.secFeeRate) * sold
      + Max(0.0, config.tafFeePerShare) / close.value * sold
  }

  /** Today's CVaR in units of the long-run one. */
  ghost function RiskRatio(m: Market): real
    requires m.referenceCvar.Some? && m.currentCvar.Some? && m.referenceCvar.value > 0.0
  {
    Max(0.0, m.currentCvar.value / m.referenceCvar.value)
  }

  /** What holding x of the target and nothing else is worth to the account: the reward of the weight,
      less half the aversion times its squared risk, less the penalty on the turnover of all risky weights,
      less the cost of the trade in the target. */
  ghost function Worth(m: Market, current: seq<real>, index: nat, config: Config, x: real): real
    requires index + 1 < |current|
    requires m.referenceCvar.Some? && m.currentCvar.Some? && m.referenceCvar.value > 0.0
  {
    Tradeoff(Max(0.000000000001, config.signalScale), Max(0.0, config.cvarPenalty), RiskRatio(m),
             Max(0.0, config.turnoverPenalty), x, Turnover(OneHot(|current| - 1, index, x), current),
             TradingCost(m.close, config, Max(0.0, x - current[index]), Max(0.0, current[index] - x)))
  }

  ghost function Tradeoff(reward: real, aversion: real, ratio: real, penalty: real, x: real, turnover: real,
                          cost: real): real {
    reward * x - 0.5 * aversion * ((ratio * x) * (ratio * x)) - penalty * turnover - cost
  }

  lemma ObjectiveIsTradeoff(p: Problem, x: real)
    requires p.InRange(x)
    ensures p.Objective(x)
            == Tradeoff(p.reward, p.riskAversion, p.normalizedRisk, p.turnoverPenalty, x, p.other + Abs(x - p.current),
                        CostAt(p.buyCost, p.sellCost, Max(0.0, x - p.current), Max(0.0, p.current - x)))
  {
    var exposure := p.normalizedRisk * x;
    assert p.Clip(x) == x;
    assert 0.5 * p.riskAversion * (exposure * exposure) == 0.5 * (p.riskAversion * (exposure * exposure));
  }

  /** No weight up to the cap is worth more, and no other one as much; where the squared risk hardly counts,
      none is worth more by over 1.25e-13. */
  ghost predicate IsBestWeight(m: Market, current: seq<real>, index: nat, config: Config, w: real)
    requires index + 1 < |current|
    requires m.referenceCvar.Some? && m.currentCvar.Some? && m.referenceCvar.value > 0.0
  {
    var cap := Min(1.0, Max(0.0, config.maxAssetWeight));
    var flat := Max(0.0, config.cvarPenalty) * RiskRatio(m) * RiskRatio(m) <= 0.000000000001;
    && 0.0 <= w <= cap
    && forall x :: 0.0 <= x <= cap ==>
         && Worth(m, current, index, config, x)
            <= Worth(m, current, index, config, w) + (if flat then 0.000000000000125 else 0.0)
         && (!flat && Worth(m, current, index, config, x) == Worth(m, current, index, config, w) ==> x == w)
  }

  ghost function CostAt(buyRate: real, sellRate: real, bought: real, sold: real): real {
    buyRate * bought + sellRate * sold
  }

  lemma CostByRate(close: Option<real>, config: Config, bought: real, sold: real)
    ensures var rates := TradeCostRates(close, config);
            TradingCost(close, config, bought, sold) == CostAt(rates.0, rates.1, bought, sold)
  {
    if close.Some? && close.value > 0.0 {
      var a, b := Max(0.0, config.slippageBps) / 10000.0, Max(0.0, config.commissionRate);
      var c, d := Max(0.0, config.catFeePerShare) / close.value, Max(0.0, config.secFeeRate);
      var e := Max(0.0, config.tafFeePerShare) / close.value;
      SpreadRates(a, b, c, d, e, bought, sold);
    }
  }

  lemma SpreadRates(a: real, b: real, c: real, d: real, e: real, bought: real, sold: real)
    ensures a * (bought + sold) + b * (bought + sold) + c * (bought + sold) + d * sold + e * sold
            == CostAt(a + b + c, a + b + c + d + e, bought, sold)
  {
  }

  /** The objective the source maximises is this worth. */
  lemma WorthIsObjective(symbols: seq<string>, book: map<string, real>, m: Market, index: nat, config: Config, x: real)
    requires index < |symbols| && ValidRisk(m)
    requires var p := BuildProblem(m, SafeCurrentWeights(symbols, book), index, config); p.InRange(x)
    ensures |SafeCurrentWeights(symbols, book)| == |symbols| + 1
    ensures var current := SafeCurrentWeights(symbols, book); var p := BuildProblem(m, current, index, config);
            Worth(m, current, index, config, x) == p.Objective(x)
  {
    hide SafeCurrentWeights, TradingCost, TradeCostRates, Turnover, OneHot, Tradeoff, Problem.Objective, CostAt;
    var current := SafeCurrentWeights(symbols, book);
    SafeCurrentWeightsArePortfolio(symbols, book);
    var p := BuildProblem(m, current, index, config);
    ReportedTurnover(current, index, x);
    CostByRate(m.close, config, Max(0.0, x - current[index]), Max(0.0, current[index] - x));
    ObjectiveIsTradeoff(p, x);
  }

  /** Enough history: 126 scenarios for today's risk and 252 for the long-run one, for every lookback. */
  lemma HistoryNeeded(m: Market, config: Config)
    ensures EnoughHistory(m, config) <==> m.currentScenarios >= 126 && m.referenceScenarios >= 252
  {
  }

  /** The decision for a target: with a bar, enough history and a valid risk its weight is the best one;
      otherwise the target is held in full, as the base policy wants it. */
  lemma OptimizeIsBest(target: int, symbols: seq<string>, frames: map<string, Market>, book: map<string, real>,
                       config: Config)
    requires 0 < target <= |symbols|
    ensures var r := Optimize(target, symbols, frames, book, config);
            var symbol, current := symbols[target - 1], SafeCurrentWeights(symbols, book);
            && r.Ok? && |r.value.weights| == |symbols| && |current| == |symbols| + 1
            && r.value.cashWeight == 1.0 - r.value.weights[target - 1]
            && r.value.turnover == Turnover(r.value.weights, current)
            && if symbol in frames && Estimable(frames[symbol])
               then
                 var w, cap := r.value.weights[target - 1], Min(1.0, Max(0.0, config.maxAssetWeight));
                 && IsBestWeight(frames[symbol], current, target - 1, config, w)
                 && r.value.status == (if w >= cap - 0.000000001 then OptimalFullExposure
                                       else if w <= 0.000000001 then OptimalCash else Optimal)
               else
                 && r.value.weights[target - 1] == 1.0
                 && r.value.status in {MissingMarketData, InsufficientHistory, InvalidRisk}
                 && (r.value.status == MissingMarketData <==> symbol !in frames)
  {
    var symbol, current := symbols[target - 1], SafeCurrentWeights(symbols, book);
    SafeCurrentWeightsArePortfolio(symbols, book);
    hide SafeCurrentWeights, Turnover;
    if symbol in frames {
      HistoryNeeded(frames[symbol], config);
      if Estimable(frames[symbol]) {
        BestWeight(symbols, book, frames[symbol], target - 1, config);
        BuiltFields(frames[symbol], current, target - 1, config);
        hide BuildProblem, Problem.Optimum, IsBestWeight;
        OptimizedProblemIsValid(symbols, book, frames[symbol], target - 1, config);
        OptimumAtMostOne(BuildProblem(frames[symbol], current, target - 1, config));
      }
    }
  }

  /** What the decision needs of the target's frame. */
  predicate Estimable(m: Market) {
    && m.currentScenarios >= 126 && m.referenceScenarios >= 252
    && m.currentCvar.Some? && m.referenceCvar.Some? && m.referenceCvar.value > 0.000000000001
  }

  lemma OptimumAtMostOne(p: Problem)
    requires p.Valid()
    ensures 0.0 <= p.Optimum() <= 1.0
  {
    OptimumInRange(p);
  }

  lemma BestWeight(symbols: seq<string>, book: map<string, real>, m: Market, index: nat, config: Config)
    requires index < |symbols| && ValidRisk(m)
    ensures |SafeCurrentWeights(symbols, book)| == |symbols| + 1
    ensures var current := SafeCurrentWeights(symbols, book);
            IsBestWeight(m, current, index, config, BuildProblem(m, current, index, config).Optimum())
  {
    SafeCurrentWeightsArePortfolio(symbols, book);
    OptimizedProblemIsValid(symbols, book, m, index, config);
    var current := SafeCurrentWeights(symbols, book);
    var p := BuildProblem(m, current, index, config);
    BuiltFields(m, current, index, config);
    hide SafeCurrentWeights, BuildProblem, Worth, Problem.Optimum, Problem.Objective, Problem.Valid, Margin;
    hide Problem.Curvature, RiskRatio;
    OptimumInRange(p);
    WorthIsObjective(symbols, book, m, index, config, p.Optimum());
    forall x | p.InRange(x)
      ensures p.Curvature() <= TINY ==> p.Objective(x) <= p.Objective(p.Optimum()) + LOW_CURVATURE_LOSS
      ensures p.Curvature() > TINY ==> p.Objective(x) <= p.Objective(p.Optimum())
      ensures p.Curvature() > TINY && p.Objective(x) == p.Objective(p.Optimum()) ==> x == p.Optimum()
      ensures Worth(m, current, index, config, x) == p.Objective(x)
    {
      WorthIsObjective(symbols, book, m, index, config, x);
      if p.Curvature() <= TINY {
        LowCurvatureError(p, x);
      } else {
        OptimumGrowth(p, x);
        PositiveMargin(p.Curvature(), p.Optimum(), x);
      }
    }
  }

  lemma BuiltFields(m: Market, current: seq<real>, index: nat, config: Config)
    requires index + 1 < |current| && ValidRisk(m)
    ensures var p := BuildProblem(m, current, index, config);
            && p.maxWeight == Min(1.0, Max(0.0, config.maxAssetWeight))
            && p.Curvature() == Max(0.0, config.cvarPenalty) * RiskRatio(m) * RiskRatio(m)
  {
  }

  /** The bounds of the request schema. */
  predicate SchemaAllows(c: Config) {
    && 0.0 <= c.cvarPenalty <= 100.0 && 0.0 <= c.turnoverPenalty <= 10.0 && 0.0 < c.signalScale <= 100.0
    && 0.0 < c.maxAssetWeight <= 1.0 && 0.0 <= c.slippageBps <= 500.0 && 0.0 <= c.commissionRate <= 1.0
    && c.catFeePerShare >= 0.0 && 0.0 <= c.secFeeRate <= 1.0 && c.tafFeePerShare >= 0.0 && 40 <= c.lookbackDays <= 1000
  }

  const SHALLOW: Config := Config(TINY, 0.5 * TINY, TINY, 1.0, 0.0, 0.0, 0.0, 0.0, 0.0, 126)
  const STEADY: Market := Market(Some(1.0), 252, 756, Some(1.0), Some(1.0))

  /** The low-curvature bound is reached by a decision the engine takes: a configuration within the
      schema, enough history, an empty book, a risk that has not changed. */
  lemma LowCurvatureErrorInUse()
    ensures SchemaAllows(SHALLOW) && EnoughHistory(STEADY, SHALLOW) && ValidRisk(STEADY)
    ensures var current := SafeCurrentWeights(["A"], map[]);
            |current| == 2 && var p := BuildProblem(STEADY, current, 0, SHALLOW);
            && p.Valid() && p.Curvature() <= TINY && p.InRange(0.5)
            && p.Objective(0.5) == p.Objective(p.Optimum()) + LOW_CURVATURE_LOSS
  {
    var current := SafeCurrentWeights(["A"], map[]);
    NewBookIsCash();
    assert current[..0] + current[1..1] == [];
    LowCurvatureErrorIsReached();
    hide SafeCurrentWeights;
    assert BuildProblem(STEADY, current, 0, SHALLOW)
        == Problem(TINY, TINY, 1.0, 0.5 * TINY, 1.0, 0.0, 0.0, 0.0, 0.0);
  }

  const SHIFTED: Config := SHALLOW.(turnoverPenalty := 0.51 * TINY)
  const UNSTEADY: Market := STEADY.(currentCvar := Some(1.01))

  /** It happens with a configuration the schema allows: from an empty book nothing is bought at one risk
      and something at a risk one per cent higher. */
  lemma RiskierHoldsMore()
    ensures SchemaAllows(SHIFTED) && EnoughHistory(UNSTEADY, SHIFTED) && ValidRisk(STEADY) && ValidRisk(UNSTEADY)
    ensures var current := SafeCurrentWeights(["A"], map[]);
            |current| == 2
            && var p, riskier := BuildProblem(STEADY, current, 0, SHIFTED), BuildProblem(UNSTEADY, current, 0, SHIFTED);
               p.Optimum() == 0.0 && riskier.Optimum() > 0.0 && p.normalizedRisk < riskier.normalizedRisk
  {
    var current := SafeCurrentWeights(["A"], map[]);
    NewBookIsCash();
    assert current[..0] + current[1..1] == [];
    hide SafeCurrentWeights;
    var p := Problem(TINY, TINY, 1.0, 0.51 * TINY, 1.0, 0.0, 0.0, 0.0, 0.0);
    assert BuildProblem(STEADY, current, 0, SHIFTED) == p;
    assert BuildProblem(UNSTEADY, current, 0, SHIFTED) == p.(normalizedRisk := 1.01);
    assert p.Objective(0.0) == 0.0 && p.Objective(1.0) == -0.01 * TINY;
    LowCurvatureOptimum(p);
    OptimumFallsWithRisk(p, p.(normalizedRisk := 1.01));
  }

  lemma NewBookIsCash()
    ensures SafeCurrentWeights(["A"], map[]) == [0.0, 1.0]
  {
    assert RawWeights(["A"], map[]) == [0.0, 0.0];
    assert Sum([0.0, 0.0]) == 0.0;
    assert OneHot(2, 1, 1.0) == [0.0, 1.0];
  }

  /** The reported turnover is the one the objective charged for. */
  lemma {:induction false} ReportedTurnover(current: seq<real>, index: nat, w: real)
    requires index + 1 < |current| && forall i :: 0 <= i < |current| ==> current[i] >= 0.0
    ensures Turnover(OneHot(|current| - 1, index, w), current)
            == Sum(current[..index] + current[index + 1..|current| - 1]) + Abs(w - current[index])
  {
    var n := |current| - 1;
    var diffs := seq(n, i requires 0 <= i < n => Abs(OneHot(n, index, w)[i] - current[i]));
    var rest := current[index + 1..n];
    assert diffs == current[..index] + ([Abs(w - current[index])] + rest);
    SumAppend(current[..index], [Abs(w - current[index])] + rest);
    SumAppend(current[..index], rest);
    assert ([Abs(w - current[index])] + rest)[1..] == rest;
    assert Turnover(OneHot(n, index, w), current) == Sum(diffs) by {
      assert |OneHot(n, index, w)| == n;
    }
  }
}
