/**
 The linear program built by engine/optimized_allocation.py and engine/concentrated_allocation.py:
 matrix rows, right-hand sides, bounds and costs written by index arithmetic. The two builders
 differ in the curvature of the risk penalty (1 and 1/2) and in the link rows, which only the
 concentrated one has; both are the one builder here.

 Main result: the matrix means the intended constraints and the costs the intended objective (BuildLp).
 */
module LpEncoding {
  import opened Common
  import opened Linear

  const TANGENTS: nat := 13

  datatype Link = Link(index: nat, closeness: real)

  /** What both builders have computed before they build the program. */
  datatype Inputs = Inputs(
    history: seq<seq<real>>, reward: seq<real>, eligible: seq<bool>, current: seq<real>, links: seq<Link>,
    primary: nat, maxWeight: real, confidence: real, riskAversion: real, turnoverPenalty: real,
    estimatedCost: real, signalScale: real, riskReference: real, riskCeiling: real, curve: real)
  {
    function Assets(): nat { |reward| }

    function Scenarios(): nat { |history| }

    predicate Valid() {
      && (forall s :: 0 <= s < |history| ==> |history[s]| == |reward|)
      && |eligible| == |reward| && |current| == |reward| + 1
      && (forall i :: 0 <= i < |links| ==> links[i].index < |reward| && links[i].index != primary)
      && (links != [] ==> primary < |reward|)
      && riskReference > 0.0
    }

    // The layout of the variables.
    function Alpha(): nat { Assets() + 1 }
    function SlackStart(): nat { Alpha() + 1 }
    function TurnoverStart(): nat { SlackStart() + Scenarios() }
    function Cvar(): nat { TurnoverStart() + Assets() + 1 }
    function Penalty(): nat { Cvar() + 1 }
    function Variables(): nat { Penalty() + 1 }

    /** How many scenarios make up the tail; hardly ever a whole number. */
    function TailSize(): real { Max(0.000000000001, (1.0 - confidence) * Scenarios() as real) }

    function TailRate(): real { 1.0 / TailSize() }

    function RiskPoint(k: nat): real { riskCeiling * k as real / 12.0 }

    function Slope(k: nat): real
      requires riskReference > 0.0
    {
      TangentSlope(curve, RiskPoint(k), riskReference)
    }

    function Offset(k: nat): real
      requires riskReference > 0.0
    {
      curve * ((RiskPoint(k) / riskReference) * (RiskPoint(k) / riskReference))
    }

    function TurnoverRate(): real
      requires riskReference > 0.0
    {
      turnoverPenalty + estimatedCost / riskReference
    }
  }

  function TangentSlope(curve: real, point: real, reference: real): real
    requires reference > 0.0
  {
    assert reference * reference > 0.0;
    2.0 * curve * point / (reference * reference)
  }

  datatype Constraint = Constraint(row: seq<real>, rhs: real)

  datatype Bound = Bound(lo: Option<real>, hi: Option<real>)

  datatype Lp = Lp(c: seq<real>, budget: seq<real>, constraints: seq<Constraint>, bounds: seq<Bound>)

  // ---------------------------------------------------------------- what a solver is given

  ghost predicate Satisfied(constraints: seq<Constraint>, x: seq<real>) {
    forall i {:trigger constraints[i]} :: 0 <= i < |constraints| ==>
      |constraints[i].row| == |x| && Dot(constraints[i].row, x) <= constraints[i].rhs
  }

  predicate Within(v: real, b: Bound) {
    (b.lo.Some? ==> b.lo.value <= v) && (b.hi.Some? ==> v <= b.hi.value)
  }

  ghost predicate InBounds(bounds: seq<Bound>, x: seq<real>) {
    forall i {:trigger bounds[i]} :: 0 <= i < |bounds| && i < |x| ==> Within(x[i], bounds[i])
  }

  ghost predicate Feasible(lp: Lp, x: seq<real>) {
    && |x| == |lp.budget| == |lp.bounds|
    && Dot(lp.budget, x) == 1.0
    && Satisfied(lp.constraints, x)
    && InBounds(lp.bounds, x)
  }

  // ---------------------------------------------------------------- what is intended

  /** A point read through the layout. */
  datatype Point = Point(weights: seq<real>, cash: real, alpha: real, slack: seq<real>, turnover: seq<real>,
                         cvar: real, penalty: real)

  function Read(p: Inputs, x: seq<real>): Point
    requires |x| == p.Variables()
  {
    Point(x[..p.Assets()], x[p.Assets()], x[p.Alpha()], x[p.SlackStart()..p.TurnoverStart()],
          x[p.TurnoverStart()..p.Cvar()], x[p.Cvar()], x[p.Penalty()])
  }

  function Target(t: Point): seq<real> { t.weights + [t.cash] }

  function Loss(p: Inputs, t: Point, s: nat): real
    requires p.Valid() && s < p.Scenarios() && |t.weights| == p.Assets()
  {
    -Dot(p.history[s], t.weights)
  }

  predicate Shaped(p: Inputs, t: Point) {
    |t.weights| == p.Assets() && |t.slack| == p.Scenarios() && |t.turnover| == p.Assets() + 1
  }

  predicate ScenarioHolds(p: Inputs, t: Point, s: nat)
    requires p.Valid() && Shaped(p, t) && s < p.Scenarios()
  {
    Loss(p, t, s) - t.alpha <= t.slack[s]
  }

  predicate CvarHolds(p: Inputs, t: Point) {
    t.alpha + Times(p.TailRate(), Sum(t.slack)) <= t.cvar
  }

  predicate TangentHolds(p: Inputs, t: Point, k: nat)
    requires p.riskReference > 0.0
  {
    Times(p.Slope(k), t.cvar) - t.penalty <= p.Offset(k)
  }

  predicate LinkHolds(p: Inputs, t: Point, l: nat)
    requires p.Valid() && Shaped(p, t) && l < |p.links|
  {
    t.weights[p.links[l].index] <= Times(p.links[l].closeness, t.weights[p.primary])
  }

  predicate TurnoverHolds(p: Inputs, t: Point, i: nat)
    requires p.Valid() && Shaped(p, t) && i <= p.Assets()
  {
    Target(t)[i] - p.current[i] <= t.turnover[i] && p.current[i] - Target(t)[i] <= t.turnover[i]
  }

  ghost predicate Capped(p: Inputs, t: Point)
    requires p.Valid() && Shaped(p, t)
  {
    && (forall i {:trigger t.weights[i]} :: 0 <= i < p.Assets() ==>
          0.0 <= t.weights[i] <= if p.eligible[i] then p.maxWeight else 0.0)
    && 0.0 <= t.cash <= 1.0
    && (forall s {:trigger t.slack[s]} :: 0 <= s < p.Scenarios() ==> t.slack[s] >= 0.0)
    && (forall i {:trigger t.turnover[i]} :: 0 <= i <= p.Assets() ==> t.turnover[i] >= 0.0)
    && t.cvar >= 0.0 && t.penalty >= 0.0
  }

  ghost predicate ConstraintsHold(p: Inputs, t: Point)
    requires p.Valid() && Shaped(p, t)
  {
    && (forall s :: 0 <= s < p.Scenarios() ==> ScenarioHolds(p, t, s))
    && CvarHolds(p, t)
    && (forall k :: 0 <= k < TANGENTS ==> TangentHolds(p, t, k))
    && (forall l :: 0 <= l < |p.links| ==> LinkHolds(p, t, l))
    && (forall i :: 0 <= i <= p.Assets() ==> TurnoverHolds(p, t, i))
  }

  /** The constraints in the program's own terms. */
  ghost predicate Allowed(p: Inputs, t: Point)
    requires p.Valid()
  {
    && Shaped(p, t)
    && Sum(t.weights) + t.cash == 1.0
    && ConstraintsHold(p, t)
    && Capped(p, t)
  }

  function Objective(p: Inputs, t: Point): real
    requires p.Valid() && Shaped(p, t)
  {
    Times(-p.signalScale, Dot(p.reward, t.weights))
    + Times(p.TurnoverRate(), Sum(t.turnover[..p.Assets()]))
    + Times(p.riskAversion, t.penalty)
  }

  // ---------------------------------------------------------------- rows

  method NewRow(n: nat) returns (row: array<real>)
    ensures fresh(row) && row.Length == n && row[..] == Constant(n, 0.0)
  {
    row := new real[n](_ => 0.0);
  }

  /** loss of scenario s, less alpha and the scenario's slack. */
  method ScenarioRow(p: Inputs, s: nat) returns (row: seq<real>)
    requires p.Valid() && s < p.Scenarios()
    ensures |row| == p.Variables()
    ensures forall x: seq<real> | |x| == p.Variables() ::
              Dot(row, x) == -Dot(p.history[s], x[..p.Assets()]) - x[p.Alpha()] - x[p.SlackStart() + s]
    ensures forall x: seq<real> | |x| == p.Variables() :: Dot(row, x) <= 0.0 <==> ScenarioHolds(p, Read(p, x), s)
  {
    hide Dot;
    hide Times;
    var n, a := p.Variables(), p.Assets();
    var cells := NewRow(n);
    forall j | 0 <= j < a {
      cells[j] := -p.history[s][j];
    }
    ghost var base := Negated(p.history[s]) + Constant(n - a, 0.0);
    assert cells[..] == base;
    cells[p.Alpha()] := -1.0;
    assert cells[..] == base[p.Alpha() := -1.0];
    cells[p.SlackStart() + s] := -1.0;
    row := cells[..];
    assert row == base[p.Alpha() := -1.0][p.SlackStart() + s := -1.0];
    forall x: seq<real> | |x| == n
      ensures Dot(row, x) == Loss(p, Read(p, x), s) - Read(p, x).alpha - Read(p, x).slack[s]
    {
      DotPut(base[p.Alpha() := -1.0], p.SlackStart() + s, -1.0, x);
      DotPut(base, p.Alpha(), -1.0, x);
      assert base == Constant(0, 0.0) + Negated(p.history[s]) + Constant(n - a, 0.0);
      DotStretch(n, 0, Negated(p.history[s]), base, x);
      DotNegated(p.history[s], x[0..a]);
      assert x[0..a] == x[..a];
      TimesUnits(x[p.Alpha()]);
      TimesUnits(x[p.SlackStart() + s]);
    }
  }

  /** alpha plus the scaled total slack, less the CVaR variable. */
  method CvarRow(p: Inputs) returns (row: seq<real>)
    requires p.Valid()
    ensures |row| == p.Variables()
    ensures forall x: seq<real> | |x| == p.Variables() ::
              Dot(row, x) == Read(p, x).alpha + Times(p.TailRate(), Sum(Read(p, x).slack)) - Read(p, x).cvar
    ensures forall x: seq<real> | |x| == p.Variables() :: Dot(row, x) <= 0.0 <==> CvarHolds(p, Read(p, x))
  {
    hide Dot;
    hide Times;
    var n, rate := p.Variables(), p.TailRate();
    var cells := NewRow(n);
    forall j | p.SlackStart() <= j < p.TurnoverStart() {
      cells[j] := rate;
    }
    ghost var values := Constant(p.Scenarios(), rate);
    ghost var base := Constant(p.SlackStart(), 0.0) + values + Constant(n - p.TurnoverStart(), 0.0);
    assert cells[..] == base;
    cells[p.Alpha()] := 1.0;
    assert cells[..] == base[p.Alpha() := 1.0];
    cells[p.Cvar()] := -1.0;
    row := cells[..];
    assert row == base[p.Alpha() := 1.0][p.Cvar() := -1.0];
    forall x: seq<real> | |x| == n
      ensures Dot(row, x) == Read(p, x).alpha + Times(rate, Sum(Read(p, x).slack)) - Read(p, x).cvar
    {
      DotPut(base[p.Alpha() := 1.0], p.Cvar(), -1.0, x);
      DotPut(base, p.Alpha(), 1.0, x);
      DotStretch(n, p.SlackStart(), values, base, x);
      DotConstant(rate, Read(p, x).slack);
      TimesUnits(x[p.Alpha()]);
      TimesUnits(x[p.Cvar()]);
    }
  }

  /** A row with two coefficients. */
  method PairRow(n: nat, i: nat, v: real, j: nat, w: real) returns (row: seq<real>)
    requires i < n && j < n && i != j
    ensures |row| == n
    ensures forall x: seq<real> | |x| == n :: Dot(row, x) == Times(v, x[i]) + Times(w, x[j])
  {
    hide Dot;
    hide Times;
    var cells := NewRow(n);
    ghost var base := Constant(n, 0.0);
    cells[i] := v;
    assert cells[..] == base[i := v];
    cells[j] := w;
    row := cells[..];
    assert row == base[i := v][j := w];
    forall x: seq<real> | |x| == n
      ensures Dot(row, x) == Times(v, x[i]) + Times(w, x[j])
    {
      DotPut(base[i := v], j, w, x);
      DotPut(base, i, v, x);
      DotConstant(0.0, x);
      TimesUnits(Sum(x));
    }
  }

  // ---------------------------------------------------------------- groups of rows

  lemma SatisfiedAppend(constraints: seq<Constraint>, c: Constraint, x: seq<real>)
    requires |c.row| == |x|
    ensures Satisfied(constraints + [c], x) <==> Satisfied(constraints, x) && Dot(c.row, x) <= c.rhs
  {
    hide Dot;
    var longer := constraints + [c];
    if Satisfied(longer, x) {
      assert longer[|constraints|] == c;
      forall i | 0 <= i < |constraints|
        ensures |constraints[i].row| == |x| && Dot(constraints[i].row, x) <= constraints[i].rhs
      {
        assert longer[i] == constraints[i];
      }
    }
  }

  lemma {:induction false} SatisfiedConcat(a: seq<Constraint>, b: seq<Constraint>, x: seq<real>)
    requires forall i :: 0 <= i < |b| ==> |b[i].row| == |x|
    ensures Satisfied(a + b, x) <==> Satisfied(a, x) && Satisfied(b, x)
  {
    if b == [] {
      assert a + b == a;
    } else {
      var front, last := b[..|b| - 1], b[|b| - 1];
      SatisfiedConcat(a, front, x);
      SatisfiedAppend(a + front, last, x);
      SatisfiedAppend(front, last, x);
      assert a + b == a + front + [last] && b == front + [last];
    }
  }

  ghost predicate Sized(constraints: seq<Constraint>, n: nat) {
    forall i {:trigger constraints[i]} :: 0 <= i < |constraints| ==> |constraints[i].row| == n
  }

  /** Append one row to a group. */
  method Extend(constraints: seq<Constraint>, row: seq<real>, rhs: real) returns (longer: seq<Constraint>)
    requires Sized(constraints, |row|)
    ensures longer == constraints + [Constraint(row, rhs)] && Sized(longer, |row|)
    ensures forall x: seq<real> | |x| == |row| ::
              Satisfied(longer, x) <==> Satisfied(constraints, x) && Dot(row, x) <= rhs
  {
    longer := constraints + [Constraint(row, rhs)];
    forall x: seq<real> | |x| == |row|
      ensures Satisfied(longer, x) <==> Satisfied(constraints, x) && Dot(row, x) <= rhs
    {
      SatisfiedAppend(constraints, Constraint(row, rhs), x);
    }
  }

  method ScenarioRows(p: Inputs) returns (group: seq<Constraint>)
    requires p.Valid()
    ensures Sized(group, p.Variables())
    ensures forall x: seq<real> | |x| == p.Variables() ::
              Satisfied(group, x) <==> forall s :: 0 <= s < p.Scenarios() ==> ScenarioHolds(p, Read(p, x), s)
  {
    hide Dot;
    hide Satisfied;
    hide ScenarioHolds;
    group := NoRows(p);
    var s := 0;
    while s < p.Scenarios()
      invariant 0 <= s <= p.Scenarios() && Sized(group, p.Variables())
      invariant forall x: seq<real> | |x| == p.Variables() ::
                  Satisfied(group, x) <==> forall k :: 0 <= k < s ==> ScenarioHolds(p, Read(p, x), k)
    {
      var row := ScenarioRow(p, s);
      group := Extend(group, row, 0.0);
      forall x: seq<real> | |x| == p.Variables()
        ensures Satisfied(group, x) <==> forall k :: 0 <= k < s + 1 ==> ScenarioHolds(p, Read(p, x), k)
      {
        assert (forall k :: 0 <= k < s + 1 ==> ScenarioHolds(p, Read(p, x), k))
          <==> (forall k :: 0 <= k < s ==> ScenarioHolds(p, Read(p, x), k)) && ScenarioHolds(p, Read(p, x), s);
      }
      s := s + 1;
    }
  }

  method NoRows(p: Inputs) returns (group: seq<Constraint>)
    ensures Sized(group, p.Variables()) && group == []
    ensures forall x :: Satisfied(group, x)
  {
    group := [];
  }

  method TangentRow(p: Inputs, k: nat) returns (row: seq<real>)
    requires p.Valid()
    ensures |row| == p.Variables()
    ensures forall x: seq<real> | |x| == p.Variables() ::
              Dot(row, x) == Times(p.Slope(k), Read(p, x).cvar) - Read(p, x).penalty
    ensures forall x: seq<real> | |x| == p.Variables() :: Dot(row, x) <= p.Offset(k) <==> TangentHolds(p, Read(p, x), k)
  {
    hide Dot;
    hide Times;
    hide Inputs.Slope;
    hide Inputs.Offset;
    row := PairRow(p.Variables(), p.Cvar(), p.Slope(k), p.Penalty(), -1.0);
    forall x: seq<real> | |x| == p.Variables()
      ensures Dot(row, x) == Times(p.Slope(k), Read(p, x).cvar) - Read(p, x).penalty
    {
      TimesUnits(x[p.Penalty()]);
    }
  }

  method TangentRows(p: Inputs) returns (group: seq<Constraint>)
    requires p.Valid()
    ensures Sized(group, p.Variables())
    ensures forall x: seq<real> | |x| == p.Variables() ::
              Satisfied(group, x) <==> forall k :: 0 <= k < TANGENTS ==> TangentHolds(p, Read(p, x), k)
  {
    hide Dot;
    hide Satisfied;
    hide TangentHolds;
    hide Inputs.Offset;
    group := NoRows(p);
    var k := 0;
    while k < TANGENTS
      invariant 0 <= k <= TANGENTS && Sized(group, p.Variables())
      invariant forall x: seq<real> | |x| == p.Variables() ::
                  Satisfied(group, x) <==> forall j :: 0 <= j < k ==> TangentHolds(p, Read(p, x), j)
    {
      var row := TangentRow(p, k);
      group := Extend(group, row, p.Offset(k));
      forall x: seq<real> | |x| == p.Variables()
        ensures Satisfied(group, x) <==> forall j :: 0 <= j < k + 1 ==> TangentHolds(p, Read(p, x), j)
      {
        assert (forall j :: 0 <= j < k + 1 ==> TangentHolds(p, Read(p, x), j))
          <==> (forall j :: 0 <= j < k ==> TangentHolds(p, Read(p, x), j)) && TangentHolds(p, Read(p, x), k);
      }
      k := k + 1;
    }
  }

  method LinkRow(p: Inputs, l: nat) returns (row: seq<real>)
    requires p.Valid() && l < |p.links|
    ensures |row| == p.Variables()
    ensures forall x: seq<real> | |x| == p.Variables() ::
              var w := Read(p, x).weights;
              Dot(row, x) == w[p.links[l].index] - Times(p.links[l].closeness, w[p.primary])
    ensures forall x: seq<real> | |x| == p.Variables() :: Dot(row, x) <= 0.0 <==> LinkHolds(p, Read(p, x), l)
  {
    hide Dot;
    hide Times;
    var index, closeness := p.links[l].index, p.links[l].closeness;
    row := PairRow(p.Variables(), index, 1.0, p.primary, -closeness);
    forall x: seq<real> | |x| == p.Variables()
      ensures Dot(row, x) == Read(p, x).weights[index] - Times(closeness, Read(p, x).weights[p.primary])
    {
      TimesUnits(x[index]);
      NegatedProduct(closeness, x[p.primary]);
    }
  }

  method LinkRows(p: Inputs) returns (group: seq<Constraint>)
    requires p.Valid()
    ensures Sized(group, p.Variables())
    ensures forall x: seq<real> | |x| == p.Variables() ::
              Satisfied(group, x) <==> forall l :: 0 <= l < |p.links| ==> LinkHolds(p, Read(p, x), l)
  {
    hide Dot;
    hide Satisfied;
    hide LinkHolds;
    group := NoRows(p);
    var l := 0;
    while l < |p.links|
      invariant 0 <= l <= |p.links| && Sized(group, p.Variables())
      invariant forall x: seq<real> | |x| == p.Variables() ::
                  Satisfied(group, x) <==> forall j :: 0 <= j < l ==> LinkHolds(p, Read(p, x), j)
    {
      var row := LinkRow(p, l);
      group := Extend(group, row, 0.0);
      forall x: seq<real> | |x| == p.Variables()
        ensures Satisfied(group, x) <==> forall j :: 0 <= j < l + 1 ==> LinkHolds(p, Read(p, x), j)
      {
        assert (forall j :: 0 <= j < l + 1 ==> LinkHolds(p, Read(p, x), j))
          <==> (forall j :: 0 <= j < l ==> LinkHolds(p, Read(p, x), j)) && LinkHolds(p, Read(p, x), l);
      }
      l := l + 1;
    }
  }

  /** The two sides of one absolute change. */
  method TurnoverPair(p: Inputs, i: nat) returns (up: seq<real>, down: seq<real>)
    requires p.Valid() && i <= p.Assets()
    ensures |up| == |down| == p.Variables()
    ensures forall x: seq<real> | |x| == p.Variables() ::
              Dot(up, x) <= p.current[i] && Dot(down, x) <= -p.current[i] <==> TurnoverHolds(p, Read(p, x), i)
  {
    hide Dot;
    hide Times;
    var z := p.TurnoverStart() + i;
    up := PairRow(p.Variables(), i, 1.0, z, -1.0);
    down := PairRow(p.Variables(), i, -1.0, z, -1.0);
    forall x: seq<real> | |x| == p.Variables()
      ensures Dot(up, x) <= p.current[i] && Dot(down, x) <= -p.current[i] <==> TurnoverHolds(p, Read(p, x), i)
    {
      TimesUnits(x[i]);
      TimesUnits(x[z]);
      assert Target(Read(p, x))[i] == x[i] && Read(p, x).turnover[i] == x[z];
    }
  }

  method TurnoverRows(p: Inputs) returns (group: seq<Constraint>)
    requires p.Valid()
    ensures Sized(group, p.Variables())
    ensures forall x: seq<real> | |x| == p.Variables() ::
              Satisfied(group, x) <==> forall i :: 0 <= i <= p.Assets() ==> TurnoverHolds(p, Read(p, x), i)
  {
    hide Dot;
    hide Satisfied;
    hide TurnoverHolds;
    group := NoRows(p);
    var i := 0;
    while i < p.Assets() + 1
      invariant 0 <= i <= p.Assets() + 1 && Sized(group, p.Variables())
      invariant forall x: seq<real> | |x| == p.Variables() ::
                  Satisfied(group, x) <==> forall j :: 0 <= j < i ==> TurnoverHolds(p, Read(p, x), j)
    {
      var up, down := TurnoverPair(p, i);
      group := Extend(group, up, p.current[i]);
      group := Extend(group, down, -p.current[i]);
      forall x: seq<real> | |x| == p.Variables()
        ensures Satisfied(group, x) <==> forall j :: 0 <= j < i + 1 ==> TurnoverHolds(p, Read(p, x), j)
      {
        assert (forall j :: 0 <= j < i + 1 ==> TurnoverHolds(p, Read(p, x), j))
          <==> (forall j :: 0 <= j < i ==> TurnoverHolds(p, Read(p, x), j)) && TurnoverHolds(p, Read(p, x), i);
      }
      i := i + 1;
    }
  }

  // ---------------------------------------------------------------- bounds, costs and the whole program

  const AT_LEAST_ZERO: Bound := Bound(Some(0.0), None)

  method Bounds(p: Inputs) returns (bounds: seq<Bound>)
    requires p.Valid()
    ensures |bounds| == p.Variables()
    ensures forall x: seq<real> | |x| == p.Variables() :: InBounds(bounds, x) <==> Capped(p, Read(p, x))
  {
    var a := p.Assets();
    bounds := [];
    var i := 0;
    while i < a
      invariant 0 <= i <= a && |bounds| == i
      invariant forall j :: 0 <= j < i ==>
                bounds[j] == Bound(Some(0.0), Some(if p.eligible[j] then p.maxWeight else 0.0))
    {
      bounds := bounds + [Bound(Some(0.0), Some(if p.eligible[i] then p.maxWeight else 0.0))];
      i := i + 1;
    }
    bounds := bounds + [Bound(Some(0.0), Some(1.0))];
    bounds := bounds + [Bound(None, None)];
    bounds := bounds + seq(p.Scenarios(), _ => AT_LEAST_ZERO);
    bounds := bounds + seq(a + 1, _ => AT_LEAST_ZERO);
    bounds := bounds + [AT_LEAST_ZERO];
    bounds := bounds + [AT_LEAST_ZERO];
    forall x: seq<real> | |x| == p.Variables()
      ensures InBounds(bounds, x) <==> Capped(p, Read(p, x))
    {
      BoundsMean(p, bounds, x);
    }
  }

  /** Where the layout puts the parts of a point. */
  lemma ReadAt(p: Inputs, x: seq<real>)
    requires |x| == p.Variables()
    ensures var t := Read(p, x);
            && |t.weights| == p.Assets() && |t.slack| == p.Scenarios() && |t.turnover| == p.Assets() + 1
            && (forall i :: 0 <= i < p.Assets() ==> t.weights[i] == x[i])
            && (forall s :: 0 <= s < p.Scenarios() ==> t.slack[s] == x[p.SlackStart() + s])
            && (forall i :: 0 <= i <= p.Assets() ==> t.turnover[i] == x[p.TurnoverStart() + i])
  {
  }

  lemma BoundsMean(p: Inputs, bounds: seq<Bound>, x: seq<real>)
    requires p.Valid() && |bounds| == |x| == p.Variables()
    requires forall i :: 0 <= i < p.Assets() ==>
               bounds[i] == Bound(Some(0.0), Some(if p.eligible[i] then p.maxWeight else 0.0))
    requires bounds[p.Assets()] == Bound(Some(0.0), Some(1.0)) && bounds[p.Alpha()] == Bound(None, None)
    requires forall i :: p.SlackStart() <= i < p.Variables() ==> bounds[i] == AT_LEAST_ZERO
    ensures InBounds(bounds, x) <==> Capped(p, Read(p, x))
  {
    var t := Read(p, x);
    ReadAt(p, x);
    if InBounds(bounds, x) {
      forall i | 0 <= i < p.Variables()
        ensures Within(x[i], bounds[i])
      {
      }
    }
    if Capped(p, t) {
      forall i | 0 <= i < p.Variables()
        ensures Within(x[i], bounds[i])
      {
        if i < p.Assets() {
          assert t.weights[i] == x[i];
        } else if p.SlackStart() <= i < p.TurnoverStart() {
          assert t.slack[i - p.SlackStart()] == x[i];
        } else if p.TurnoverStart() <= i < p.Cvar() {
          assert t.turnover[i - p.TurnoverStart()] == x[i];
        }
      }
    }
  }

  /** One on the asset and cash weights. */
  method BudgetRow(p: Inputs) returns (row: seq<real>)
    requires p.Valid()
    ensures |row| == p.Variables()
    ensures forall x: seq<real> | |x| == p.Variables() :: Dot(row, x) == Sum(Read(p, x).weights) + Read(p, x).cash
  {
    hide Dot;
    hide Times;
    var n, a := p.Variables(), p.Assets();
    var cells := NewRow(n);
    forall j | 0 <= j < a + 1 {
      cells[j] := 1.0;
    }
    row := cells[..];
    ghost var ones := Constant(a + 1, 1.0);
    assert row == Constant(0, 0.0) + ones + Constant(n - a - 1, 0.0);
    forall x: seq<real> | |x| == n
      ensures Dot(row, x) == Sum(Read(p, x).weights) + Read(p, x).cash
    {
      DotStretch(n, 0, ones, row, x);
      assert x[0..a + 1] == x[..a] + [x[a]];
      DotConstant(1.0, x[0..a + 1]);
      SumAppend(x[..a], [x[a]]);
      TimesUnits(Sum(x[0..a + 1]));
      assert Sum([x[a]]) == x[a];
    }
  }

  lemma {:induction false} DotScaled(k: real, a: seq<real>, b: seq<real>, x: seq<real>)
    requires |a| == |b| == |x| && forall i :: 0 <= i < |a| ==> b[i] == Times(k, a[i])
    ensures Dot(b, x) == Times(k, Dot(a, x))
  {
    hide Times;
    if a == [] {
      TimesUnits(k);
    } else {
      DotScaled(k, a[1..], b[1..], x[1..]);
      TimesAssociates(k, a[0], x[0]);
      TimesDistributes(k, Times(a[0], x[0]), Dot(a[1..], x[1..]));
    }
  }

  /** Reward on the weights, costs on the assets' turnover, aversion on the penalty. */
  method Costs(p: Inputs) returns (c: seq<real>)
    requires p.Valid()
    ensures |c| == p.Variables()
    ensures forall x: seq<real> | |x| == p.Variables() :: Dot(c, x) == Objective(p, Read(p, x))
  {
    hide Dot;
    hide Times;
    hide Inputs.TurnoverRate;
    var n, a, z := p.Variables(), p.Assets(), p.TurnoverStart();
    var cells := NewRow(n);
    forall j | 0 <= j < a {
      cells[j] := Times(-p.signalScale, p.reward[j]);
    }
    forall j | z <= j < z + a {
      cells[j] := p.TurnoverRate();
    }
    ghost var before := cells[..];
    cells[p.Penalty()] := p.riskAversion;
    c := cells[..];
    assert c == before[p.Penalty() := p.riskAversion];
    forall x: seq<real> | |x| == n
      ensures Dot(c, x) == Objective(p, Read(p, x))
    {
      CostsMean(p, before, x);
    }
  }

  lemma CostsMean(p: Inputs, base: seq<real>, x: seq<real>)
    requires p.Valid() && |base| == |x| == p.Variables()
    requires forall j :: 0 <= j < p.Assets() ==> base[j] == Times(-p.signalScale, p.reward[j])
    requires forall j :: p.TurnoverStart() <= j < p.TurnoverStart() + p.Assets() ==> base[j] == p.TurnoverRate()
    requires forall j :: p.Assets() <= j < p.TurnoverStart() || p.TurnoverStart() + p.Assets() <= j < p.Variables() ==>
               base[j] == 0.0
    ensures Dot(base[p.Penalty() := p.riskAversion], x) == Objective(p, Read(p, x))
  {
    hide Dot;
    hide Times;
    hide Inputs.TurnoverRate;
    var n, a, z := p.Variables(), p.Assets(), p.TurnoverStart();
    var gains, rates := base[..a], Constant(a, p.TurnoverRate());
    var rest := Constant(z - a, 0.0) + rates + Constant(n - z - a, 0.0);
    assert base == gains + rest;
    DotPut(base, p.Penalty(), p.riskAversion, x);
    DotConcat(gains, rest, x);
    TurnoverCosts(p, rest, x);
    DotScaled(-p.signalScale, p.reward, gains, x[..a]);
  }

  lemma TurnoverCosts(p: Inputs, rest: seq<real>, x: seq<real>)
    requires p.Valid() && |x| == p.Variables()
    requires var n, a, z := p.Variables(), p.Assets(), p.TurnoverStart();
             rest == Constant(z - a, 0.0) + Constant(a, p.TurnoverRate()) + Constant(n - z - a, 0.0)
    ensures Dot(rest, x[p.Assets()..]) == Times(p.TurnoverRate(), Sum(Read(p, x).turnover[..p.Assets()]))
  {
    hide Dot;
    hide Times;
    hide Inputs.TurnoverRate;
    var n, a, z := p.Variables(), p.Assets(), p.TurnoverStart();
    DotStretch(n - a, z - a, Constant(a, p.TurnoverRate()), rest, x[a..]);
    assert x[a..][z - a..z] == x[z..z + a] == Read(p, x).turnover[..a];
    DotConstant(p.TurnoverRate(), x[z..z + a]);
  }

  /** A vector is feasible for the matrix exactly when the point it stands for is allowed, and costs its
      objective. */
  ghost predicate Encodes(lp: Lp, p: Inputs)
    requires p.Valid()
  {
    && |lp.c| == |lp.budget| == |lp.bounds| == p.Variables()
    && (forall x: seq<real> | |x| == p.Variables() :: Feasible(lp, x) <==> Allowed(p, Read(p, x)))
    && (forall x: seq<real> | |x| == p.Variables() :: Dot(lp.c, x) == Objective(p, Read(p, x)))
  }

  /** The whole program. */
  method BuildLp(p: Inputs) returns (lp: Lp)
    requires p.Valid()
    ensures |lp.c| == |lp.budget| == |lp.bounds| == p.Variables()
    ensures forall x: seq<real> | |x| == p.Variables() :: Feasible(lp, x) <==> Allowed(p, Read(p, x))
    ensures forall x: seq<real> | |x| == p.Variables() :: Dot(lp.c, x) == Objective(p, Read(p, x))
    ensures Encodes(lp, p)
  {
    hide Dot;
    hide Satisfied;
    hide InBounds;
    hide Capped;
    hide ScenarioHolds;
    hide CvarHolds;
    hide TangentHolds;
    hide LinkHolds;
    hide TurnoverHolds;
    hide Objective;
    var c := Costs(p);
    var budget := BudgetRow(p);
    var scenarios := ScenarioRows(p);
    var cvarRow := CvarRow(p);
    var tail := Extend(scenarios, cvarRow, 0.0);
    var tangents := TangentRows(p);
    var links := LinkRows(p);
    var turnover := TurnoverRows(p);
    var bounds := Bounds(p);
    lp := Lp(c, budget, tail + tangents + links + turnover, bounds);
    forall x: seq<real> | |x| == p.Variables()
      ensures Satisfied(lp.constraints, x) <==> ConstraintsHold(p, Read(p, x))
    {
      SatisfiedConcat(tail, tangents, x);
      SatisfiedConcat(tail + tangents, links, x);
      SatisfiedConcat(tail + tangents + links, turnover, x);
    }
  }
}
