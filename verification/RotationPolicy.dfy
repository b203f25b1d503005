/**
 The utility policies: the research policy of engine/capital_rotation.py (_utility_policy) in legacy
 and risk-off mode, the live policy of engine/live_policy.py, and the absolute-utility cash gate
 with its protected base policy.

 Main results: research and live policy agree (LiveEqualsResearch); in every legacy run a position
 is left only after the minimum holding or when its own utility is gone, and every rotation gains
 the margin (LegacyRunHoldsLongEnough, LegacyRotationGains); every decision of the three policies is
 characterised in both directions (LegacyDecides, RiskOffDecides, GateDecides); the cash gate's protected base is
 the legacy run exactly as long as no date without any utility finds the base invested
 (ShadowIsLegacyRun), a gate that always accepts is the legacy policy (AcceptingGateIsLegacy), and the
 two thresholds make a hysteresis over whole runs (GateHysteresis, NoFlapping).
 */
module RotationPolicy {
  import opened Common
  import L = Ledger

  /** A utility: minus infinity where the model has nothing to say. */
  datatype Utility = NegInf | Fin(value: real)

  predicate AtLeast(a: Utility, b: Utility) {
    b.NegInf? || (a.Fin? && a.value >= b.value)
  }

  function Plus(u: Utility, margin: real): Utility {
    if u.Fin? then Fin(u.value + margin) else NegInf
  }

  datatype Config = Config(minHolding: int, cashThreshold: real, minEdge: real, switchMargin: real) {
    function Required(calibrated: real): real { Max(switchMargin, calibrated) }

    function Entry(): real { cashThreshold + minEdge }
  }

  /** Index 0 is cash with utility zero, index k the k-th symbol. */
  predicate ValidUtilities(u: seq<Utility>) { u != [] && u[0] == Fin(0.0) }

  predicate Tradable(u: seq<Utility>) {
    exists k :: 0 < k < |u| && u[k].Fin?
  }

  // ---------------------------------------------------------------- best and ranked positions

  /** numpy's argmax: the first index of the largest utility. */
  function ArgMax(u: seq<Utility>): (m: nat)
    requires u != []
    ensures m < |u|
    ensures forall i :: 0 <= i < |u| ==> AtLeast(u[m], u[i])
    ensures forall i :: 0 <= i < m ==> !AtLeast(u[i], u[m])
  {
    var last := |u| - 1;
    if last == 0 then 0
    else
      var m := ArgMax(u[..last]);
      assert forall i :: 0 <= i < last ==> u[..last][i] == u[i];
      if AtLeast(u[m], u[last]) then m else last
  }

  /** Best utility first, ties by symbol; the new position has the largest symbol so far. */
  function InsertRanked(ranked: seq<nat>, position: nat, u: seq<Utility>): (longer: seq<nat>)
    requires position < |u| && forall i :: 0 <= i < |ranked| ==> ranked[i] < |u|
    ensures |longer| == |ranked| + 1
    ensures forall k :: k in longer <==> k in ranked || k == position
  {
    if ranked == [] then [position]
    else if AtLeast(u[ranked[0]], u[position]) then
      [ranked[0]] + InsertRanked(ranked[1..], position, u)
    else [position] + ranked
  }

  /** The finite asset positions below n, ranked. */
  function Ranked(u: seq<Utility>, n: nat): (ranked: seq<nat>)
    requires n <= |u|
    ensures forall k :: k in ranked <==> 0 < k < n && u[k].Fin?
  {
    if n <= 1 then []
    else
      var before := Ranked(u, n - 1);
      assert forall i :: 0 <= i < |before| ==> before[i] in before;
      if u[n - 1].Fin? then InsertRanked(before, n - 1, u) else before
  }

  /** a is ranked above b: larger utility, or the same and an earlier symbol. */
  predicate Precedes(u: seq<Utility>, a: nat, b: nat) {
    a < |u| && b < |u| && AtLeast(u[a], u[b]) && (AtLeast(u[b], u[a]) ==> a < b)
  }

  ghost predicate InRankOrder(u: seq<Utility>, ranked: seq<nat>) {
    forall i, j :: 0 <= i < j < |ranked| ==> Precedes(u, ranked[i], ranked[j])
  }

  lemma {:induction false} InsertKeepsOrder(ranked: seq<nat>, position: nat, u: seq<Utility>)
    requires position < |u| && forall i :: 0 <= i < |ranked| ==> ranked[i] < position
    requires InRankOrder(u, ranked)
    ensures InRankOrder(u, InsertRanked(ranked, position, u))
  {
    if ranked != [] && AtLeast(u[ranked[0]], u[position]) {
      InsertKeepsOrder(ranked[1..], position, u);
      var rest := InsertRanked(ranked[1..], position, u);
      forall j | 0 <= j < |rest|
        ensures Precedes(u, ranked[0], rest[j])
      {
        assert rest[j] in rest;
      }
    }
  }

  lemma {:induction false} RankedIsInOrder(u: seq<Utility>, n: nat)
    requires n <= |u|
    ensures InRankOrder(u, Ranked(u, n))
  {
    if n > 1 {
      RankedIsInOrder(u, n - 1);
      var before := Ranked(u, n - 1);
      assert forall i :: 0 <= i < |before| ==> before[i] in before;
      if u[n - 1].Fin? {
        InsertKeepsOrder(before, n - 1, u);
      }
    }
  }

  /** The first ranked position whose cash edge passes the entry threshold. */
  function FirstCandidate(ranked: seq<nat>, edges: seq<Utility>, entry: real): (candidate: Option<nat>)
    requires forall i :: 0 <= i < |ranked| ==> ranked[i] < |edges|
    ensures candidate.Some? ==> candidate.value in ranked && AtLeast(edges[candidate.value], Fin(entry))
    ensures candidate.None? ==> forall k :: k in ranked ==> k < |edges| && !AtLeast(edges[k], Fin(entry))
  {
    if ranked == [] then None
    else if AtLeast(edges[ranked[0]], Fin(entry)) then Some(ranked[0])
    else FirstCandidate(ranked[1..], edges, entry)
  }

  /** The first ranked asset that may be entered. */
  function EntryCandidate(u: seq<Utility>, edges: seq<Utility>, entry: real): (candidate: Option<nat>)
    requires |u| == |edges|
    ensures candidate.Some? ==> 0 < candidate.value < |u| && u[candidate.value].Fin?
  {
    var ranked := Ranked(u, |u|);
    assert forall i :: 0 <= i < |ranked| ==> ranked[i] in ranked;
    FirstCandidate(ranked, edges, entry)
  }

  lemma {:induction false} FirstCandidateIsFirst(u: seq<Utility>, ranked: seq<nat>, edges: seq<Utility>, entry: real)
    requires InRankOrder(u, ranked) && forall i :: 0 <= i < |ranked| ==> ranked[i] < |edges|
    ensures var candidate := FirstCandidate(ranked, edges, entry);
            candidate.Some? ==> forall k :: k in ranked && AtLeast(edges[k], Fin(entry)) && k != candidate.value ==>
                                   Precedes(u, candidate.value, k)
  {
    if ranked != [] && !AtLeast(edges[ranked[0]], Fin(entry)) {
      FirstCandidateIsFirst(u, ranked[1..], edges, entry);
    }
  }

  /** An asset may be entered when it has a utility and its cash edge reaches the threshold. */
  predicate MayEnter(u: seq<Utility>, edges: seq<Utility>, entry: real, k: nat)
    requires |u| == |edges|
  {
    0 < k < |u| && u[k].Fin? && AtLeast(edges[k], Fin(entry))
  }

  /** The entry candidate is the highest ranked asset that may be entered. */
  lemma EntryCandidateIsBest(u: seq<Utility>, edges: seq<Utility>, entry: real)
    requires |u| == |edges|
    ensures var candidate := EntryCandidate(u, edges, entry);
            && (candidate.None? <==> forall k :: !MayEnter(u, edges, entry, k))
            && (candidate.Some? ==>
                  && MayEnter(u, edges, entry, candidate.value)
                  && forall k :: MayEnter(u, edges, entry, k) && k != candidate.value ==>
                                   Precedes(u, candidate.value, k))
  {
    var ranked := Ranked(u, |u|);
    assert forall i :: 0 <= i < |ranked| ==> ranked[i] in ranked;
    RankedIsInOrder(u, |u|);
    FirstCandidateIsFirst(u, ranked, edges, entry);
    var candidate := EntryCandidate(u, edges, entry);
    assert candidate.Some? ==> MayEnter(u, edges, entry, candidate.value);
    assert forall k :: MayEnter(u, edges, entry, k) ==> k in ranked;
  }

  // ---------------------------------------------------------------- the research policy

  datatype Mode = Legacy | RiskOff

  datatype Reason = NoUtility | MinHoldGuard | CashThreshold | EnterBest | MinEdgeGuard | HoldBest | Rotate
                  | SwitchMarginGuard | RiskOffEntryGuard | RiskOffRotate | RiskOffExit | HysteresisHold

  datatype Decision = Decision(target: nat, score: Utility, reason: Reason)

  function LegacyBranch(u: seq<Utility>, position: nat, holding: nat, c: Config, calibrated: real): Decision
    requires ValidUtilities(u) && position < |u|
  {
    var best := ArgMax(u);
    var current := u[position];
    if position > 0 && current.Fin? && holding < c.minHolding then Decision(position, current, MinHoldGuard)
    else if best == 0 || !(u[best].Fin? && u[best].value > c.cashThreshold) then Decision(0, Fin(0.0), CashThreshold)
    else if position == 0 then
      if AtLeast(u[best], Fin(c.Entry())) then Decision(best, u[best], EnterBest)
      else Decision(0, Fin(0.0), MinEdgeGuard)
    else if best == position then Decision(position, current, HoldBest)
    else if AtLeast(u[best], Plus(current, c.Required(calibrated))) then Decision(best, u[best], Rotate)
    else Decision(position, current, SwitchMarginGuard)
  }

  function RiskOffBranch(u: seq<Utility>, edges: seq<Utility>, position: nat, holding: nat, c: Config,
                         calibrated: real): Decision
    requires ValidUtilities(u) && position < |u| == |edges|
  {
    var candidate := EntryCandidate(u, edges, c.Entry());
    var current := u[position];
    if position == 0 then
      if candidate.None? then Decision(0, Fin(0.0), RiskOffEntryGuard)
      else Decision(candidate.value, u[candidate.value], EnterBest)
    else if !(edges[position].Fin? && edges[position].value > c.cashThreshold) then
      if candidate.Some? then Decision(candidate.value, u[candidate.value], RiskOffRotate)
      else Decision(0, Fin(0.0), RiskOffExit)
    else if holding < c.minHolding then Decision(position, current, MinHoldGuard)
    else if candidate.None? then Decision(position, current, HysteresisHold)
    else if candidate.value == position then Decision(position, current, HoldBest)
    else if AtLeast(u[candidate.value], Plus(current, c.Required(calibrated))) then
      Decision(candidate.value, u[candidate.value], Rotate)
    else Decision(position, current, SwitchMarginGuard)
  }

  /** The research policy; edges are only read in risk-off mode. */
  function Decide(mode: Mode, u: seq<Utility>, edges: seq<Utility>, position: nat, holding: nat, c: Config,
                  calibrated: real): Decision
    requires ValidUtilities(u) && position < |u| == |edges|
  {
    if !Tradable(u) then Decision(0, Fin(0.0), NoUtility)
    else if Ranked(u, |u|) == [] then Decision(0, Fin(0.0), NoUtility)
    else match mode
      case Legacy => LegacyBranch(u, position, holding, c, calibrated)
      case RiskOff => RiskOffBranch(u, edges, position, holding, c, calibrated)
  }

  // ---------------------------------------------------------------- the live policy

  /** build_live_rotation_policy: target and score only. */
  function DecideLive(mode: Mode, u: seq<Utility>, edges: seq<Utility>, position: nat, holding: nat, c: Config,
                      calibrated: real): (nat, Utility)
    requires ValidUtilities(u) && position < |u| == |edges|
  {
    if !Tradable(u) then (0, Fin(0.0))
    else match mode
      case Legacy =>
        var best := ArgMax(u);
        if position > 0 && u[position].Fin? && holding < c.minHolding then (position, u[position])
        else if best == 0 || !(u[best].Fin? && u[best].value > c.cashThreshold) then (0, Fin(0.0))
        else if position == 0 then
          if AtLeast(u[best], Fin(c.cashThreshold + c.minEdge)) then (best, u[best]) else (0, Fin(0.0))
        else if best == position then (position, u[position])
        else if AtLeast(u[best], Plus(u[position], Max(c.switchMargin, calibrated))) then (best, u[best])
        else (position, u[position])
      case RiskOff =>
        if Ranked(u, |u|) == [] then (0, Fin(0.0))
        else
          var candidate := EntryCandidate(u, edges, c.cashThreshold + c.minEdge);
          var investable := edges[position].Fin? && edges[position].value > c.cashThreshold;
          if position == 0 || !investable then
            if candidate.None? then (0, Fin(0.0)) else (candidate.value, u[candidate.value])
          else if holding < c.minHolding || candidate.None? || candidate.value == position then (position, u[position])
          else if AtLeast(u[candidate.value], Plus(u[position], Max(c.switchMargin, calibrated))) then
            (candidate.value, u[candidate.value])
          else (position, u[position])
  }

  /** Given the same utilities the live policy acts exactly as the researched one. */
  lemma LiveEqualsResearch(mode: Mode, u: seq<Utility>, edges: seq<Utility>, position: nat, holding: nat, c: Config,
                           calibrated: real)
    requires ValidUtilities(u) && position < |u| == |edges|
    ensures var d := Decide(mode, u, edges, position, holding, c, calibrated);
            DecideLive(mode, u, edges, position, holding, c, calibrated) == (d.target, d.score)
    ensures Decide(mode, u, edges, position, holding, c, calibrated).target < |u|
  {
    hide ArgMax, Ranked, EntryCandidate;
    if Tradable(u) {
      var k :| 0 < k < |u| && u[k].Fin?;
      assert k in Ranked(u, |u|);
    }
  }

  predicate Investable(edges: seq<Utility>, position: nat, c: Config)
    requires position < |edges|
  {
    edges[position].Fin? && edges[position].value > c.cashThreshold
  }

  /** Risk-off: a position is entered only from the top of those that may be entered; an investable
      one is left only after the minimum holding and for a gain of the margin, any other one at once;
      cash is chosen only when nothing may be entered. */
  lemma RiskOffDecision(u: seq<Utility>, edges: seq<Utility>, position: nat, holding: nat, c: Config, calibrated: real)
    requires ValidUtilities(u) && position < |u| == |edges| && Tradable(u)
    ensures var target := Decide(RiskOff, u, edges, position, holding, c, calibrated).target;
            && target < |u|
            && (target > 0 && target != position ==>
                  MayEnter(u, edges, c.Entry(), target)
                  && forall k :: MayEnter(u, edges, c.Entry(), k) && k != target ==> Precedes(u, target, k))
            && (position > 0 && Investable(edges, position, c) && target != position ==>
                  target > 0 && holding >= c.minHolding
                  && AtLeast(u[target], Plus(u[position], Max(c.switchMargin, calibrated))))
            && (position > 0 && !Investable(edges, position, c) && target == position ==>
                  MayEnter(u, edges, c.Entry(), position))
            && (target == 0 ==> forall k :: !MayEnter(u, edges, c.Entry(), k))
  {
    hide ArgMax, Ranked, EntryCandidate, MayEnter, Precedes;
    var k :| 0 < k < |u| && u[k].Fin?;
    assert k in Ranked(u, |u|);
    EntryCandidateIsBest(u, edges, c.Entry());
  }

  /** The highest ranked asset of those that may be entered. */
  ghost predicate IsBestEntry(u: seq<Utility>, edges: seq<Utility>, entry: real, k: nat)
    requires |u| == |edges|
  {
    MayEnter(u, edges, entry, k) && forall j :: MayEnter(u, edges, entry, j) && j != k ==> Precedes(u, k, j)
  }

  /** Risk-off, in both directions. From cash, or with a position that is not investable, the target is the
      best entry if there is one, and cash otherwise. An investable position is given up for the best entry
      if and only if it has been held for the minimum and its utility is gone or the entry's is higher by
      the margin; there is no other way to leave it. */
  lemma RiskOffDecides(u: seq<Utility>, edges: seq<Utility>, position: nat, holding: nat, c: Config, calibrated: real)
    requires ValidUtilities(u) && position < |u| == |edges|
    ensures var d := Decide(RiskOff, u, edges, position, holding, c, calibrated);
            var entry := c.cashThreshold + c.minEdge;
            && d.target < |u| && d.score == u[d.target]
            && (!Tradable(u) ==> d.target == 0)
            && (Tradable(u) && (position == 0 || !Investable(edges, position, c)) ==>
                  if d.target == 0 then forall k :: !MayEnter(u, edges, entry, k)
                  else IsBestEntry(u, edges, entry, d.target))
            && (Tradable(u) && position > 0 && Investable(edges, position, c) ==>
                  && (d.target == position || IsBestEntry(u, edges, entry, d.target))
                  && forall k :: IsBestEntry(u, edges, entry, k) && k != position ==>
                       (d.target == k <==> holding >= c.minHolding && Gains(u, position, k, c, calibrated)))
  {
    hide ArgMax, Ranked, EntryCandidate, MayEnter, Precedes, FirstCandidate, InsertRanked;
    if Tradable(u) {
      var k :| 0 < k < |u| && u[k].Fin?;
      assert k in Ranked(u, |u|);
    }
    EntryCandidateIsBest(u, edges, c.Entry());
    var candidate := EntryCandidate(u, edges, c.Entry());
    assert candidate.Some? ==> IsBestEntry(u, edges, c.Entry(), candidate.value);
    forall a, b | IsBestEntry(u, edges, c.Entry(), a) && IsBestEntry(u, edges, c.Entry(), b)
      ensures a == b
    {
      OneBestEntry(u, edges, c.Entry(), a, b);
    }
    EntryHasUtility(u, edges, c.Entry());
  }

  /** The new asset's utility is higher by the larger of the two margins, or the present one has none. */
  predicate Gains(u: seq<Utility>, position: nat, k: nat, c: Config, calibrated: real)
    requires position < |u|
  {
    k < |u| && (u[position].NegInf?
                || (u[k].Fin? && u[k].value >= u[position].value + c.switchMargin
                    && u[k].value >= u[position].value + calibrated))
  }

  lemma OneBestEntry(u: seq<Utility>, edges: seq<Utility>, entry: real, a: nat, b: nat)
    requires |u| == |edges| && IsBestEntry(u, edges, entry, a) && IsBestEntry(u, edges, entry, b)
    ensures a == b
  {
    hide MayEnter;
  }

  lemma EntryHasUtility(u: seq<Utility>, edges: seq<Utility>, entry: real)
    requires |u| == |edges|
    ensures forall k: nat :: MayEnter(u, edges, entry, k) ==> 0 < k < |u| && u[k].Fin?
  {
  }

  // ---------------------------------------------------------------- runs of the legacy policy

  datatype Position = Position(asset: nat, holding: nat)

  /** What a fold's policy sees on one date: the utilities, and the fold's calibrated margin. */
  datatype Session = Session(utilities: seq<Utility>, calibrated: real)

  /** How the simulators carry position and holding from one session to the next. */
  function Next(p: Position, target: nat): Position {
    Position(target, L.NextHolding(p.asset, p.holding, target))
  }

  predicate ValidSession(s: Session, width: nat) {
    ValidUtilities(s.utilities) && |s.utilities| == width
  }

  function LegacyDecision(s: Session, p: Position, c: Config): (d: Decision)
    requires ValidUtilities(s.utilities) && p.asset < |s.utilities|
    ensures d.target < |s.utilities|
  {
    LiveEqualsResearch(Legacy, s.utilities, s.utilities, p.asset, p.holding, c, s.calibrated);
    Decide(Legacy, s.utilities, s.utilities, p.asset, p.holding, c, s.calibrated)
  }

  ghost predicate ValidRun(run: seq<Session>, width: nat) {
    width > 0 && forall t :: 0 <= t < |run| ==> ValidSession(run[t], width)
  }

  /** The position after the first n decisions, starting in cash. */
  function LegacyRun(run: seq<Session>, width: nat, c: Config, n: nat): (p: Position)
    requires ValidRun(run, width) && n <= |run|
    ensures p.asset < width && (p.holding > 0 <==> p.asset > 0)
  {
    if n == 0 then Position(0, 0)
    else
      var before := LegacyRun(run, width, c, n - 1);
      Next(before, LegacyDecision(run[n - 1], before, c).target)
  }

  /** The asset of decision n was the answer to each of the last k decisions. */
  ghost predicate HeldFor(run: seq<Session>, width: nat, c: Config, n: nat, k: nat)
    requires ValidRun(run, width) && k <= n <= |run|
  {
    forall i :: n - k < i <= n ==> LegacyRun(run, width, c, i).asset == LegacyRun(run, width, c, n).asset
  }

  /** Holding counts the sessions the position has been held: the last so many decisions answered it,
      and the one before them did not. */
  lemma {:induction false} HoldingCountsSessions(run: seq<Session>, width: nat, c: Config, n: nat)
    requires ValidRun(run, width) && n <= |run|
    ensures var p := LegacyRun(run, width, c, n);
            && p.holding <= n && HeldFor(run, width, c, n, p.holding)
            && (p.asset > 0 ==> LegacyRun(run, width, c, n - p.holding).asset != p.asset)
  {
    hide LegacyDecision;
    if n > 0 {
      HoldingCountsSessions(run, width, c, n - 1);
    }
  }

  lemma LegacyLeaves(s: Session, p: Position, c: Config)
    requires ValidUtilities(s.utilities) && 0 < p.asset < |s.utilities| && s.utilities[p.asset].Fin?
    ensures LegacyDecision(s, p, c).target != p.asset ==> p.holding >= c.minHolding
  {
    LiveEqualsResearch(Legacy, s.utilities, s.utilities, p.asset, p.holding, c, s.calibrated);
  }

  /** In a legacy run a position is left only when its own utility is gone or after it has been held
      for the minimum number of sessions. */
  lemma LegacyRunHoldsLongEnough(run: seq<Session>, width: nat, c: Config, t: nat)
    requires ValidRun(run, width) && t < |run|
    ensures var asset := LegacyRun(run, width, c, t).asset;
            asset > 0 && LegacyRun(run, width, c, t + 1).asset != asset && run[t].utilities[asset].Fin? ==>
              c.minHolding <= t && (c.minHolding > 0 ==> HeldFor(run, width, c, t, c.minHolding))
  {
    hide LegacyDecision;
    var p := LegacyRun(run, width, c, t);
    HoldingCountsSessions(run, width, c, t);
    if p.asset > 0 && run[t].utilities[p.asset].Fin? {
      LegacyLeaves(run[t], p, c);
    }
  }

  /** What every change of a legacy decision is worth. */
  lemma LegacyRotationGains(s: Session, p: Position, c: Config)
    requires ValidUtilities(s.utilities) && p.asset < |s.utilities|
    ensures var u := s.utilities; var target := LegacyDecision(s, p, c).target;
            && (target > 0 && target != p.asset ==>
                  && u[target].Fin? && u[target].value > c.cashThreshold
                  && (forall k :: 0 <= k < |u| ==> AtLeast(u[target], u[k])))
            && (target > 0 && p.asset == 0 ==> u[target].value >= c.Entry())
            && (target > 0 && p.asset > 0 && target != p.asset && u[p.asset].Fin? ==>
                  u[target].value >= u[p.asset].value + Max(c.switchMargin, s.calibrated))
            && (target == 0 && p.asset > 0 ==>
                  forall k :: 0 < k < |u| && u[k].Fin? ==> u[k].value <= c.cashThreshold || u[k].value <= 0.0)
  {
    if Tradable(s.utilities) {
      var k :| 0 < k < |s.utilities| && s.utilities[k].Fin?;
      assert k in Ranked(s.utilities, |s.utilities|);
    }
  }

  /** The first of the positions with the largest utility, cash included. */
  predicate IsFirstBest(u: seq<Utility>, b: nat) {
    && b < |u|
    && (forall i :: 0 <= i < |u| ==> AtLeast(u[b], u[i]))
    && (forall i :: 0 <= i < b ==> !AtLeast(u[i], u[b]))
  }

  /** Legacy, in both directions. A finite position is kept below the minimum holding. Otherwise the target
      is cash if no asset is best with a utility above the threshold; from cash it is the first best asset
      if and only if that reaches the entry threshold; and with a position it is the first best asset if and
      only if that is the position, the position has no utility, or the best one is higher by the margin. */
  lemma LegacyDecides(s: Session, p: Position, c: Config, b: nat)
    requires ValidUtilities(s.utilities) && p.asset < |s.utilities| && IsFirstBest(s.utilities, b)
    ensures var u := s.utilities; var d := LegacyDecision(s, p, c);
            var guarded := p.asset > 0 && u[p.asset].Fin? && p.holding < c.minHolding;
            var worthy := b > 0 && u[b].Fin? && u[b].value > c.cashThreshold;
            && d.score == u[d.target]
            && (!Tradable(u) ==> d.target == 0)
            && (Tradable(u) && guarded ==> d.target == p.asset)
            && (Tradable(u) && !guarded && !worthy ==> d.target == 0)
            && (Tradable(u) && !guarded && worthy && p.asset == 0 ==>
                  d.target == if u[b].value >= c.cashThreshold + c.minEdge then b else 0)
            && (Tradable(u) && !guarded && worthy && p.asset > 0 ==>
                  && (d.target == b || d.target == p.asset)
                  && (d.target == b <==> b == p.asset || Gains(u, p.asset, b, c, s.calibrated)))
  {
    var u := s.utilities;
    hide Ranked;
    if Tradable(u) {
      var k :| 0 < k < |u| && u[k].Fin?;
      assert k in Ranked(u, |u|);
    }
    var m := ArgMax(u);
    hide ArgMax;
    assert m == b by {
      assert AtLeast(u[b], u[m]) && AtLeast(u[m], u[b]);
    }
  }

  // ---------------------------------------------------------------- the absolute-utility cash gate

  datatype Gate = Gate(entry: real, exit: real) {
    /** Two thresholds: the exit one while invested, the entry one while in cash. */
    predicate Accepts(best: real, position: nat) {
      best >= if position > 0 then exit else entry
    }
  }

  /** The utility of the best ranked asset. */
  function BestScore(u: seq<Utility>): (best: real)
    requires Tradable(u)
    ensures forall k :: 0 < k < |u| && u[k].Fin? ==> u[k].value <= best
    ensures exists k :: 0 < k < |u| && u[k] == Fin(best)
  {
    var ranked := Ranked(u, |u|);
    var k :| 0 < k < |u| && u[k].Fin?;
    assert k in ranked;
    RankedIsInOrder(u, |u|);
    assert ranked[0] in ranked;
    assert forall j :: 0 < j < |u| && u[j].Fin? ==> j in ranked;
    u[ranked[0]].value
  }

  /** The protected base state and the gated action. */
  datatype GateState = GateState(shadow: Position, actual: Position)

  function GatedTarget(s: Session, g: GateState, c: Config, gate: Gate): (target: nat)
    requires ValidUtilities(s.utilities) && g.shadow.asset < |s.utilities|
    ensures target < |s.utilities|
  {
    if Tradable(s.utilities) && gate.Accepts(BestScore(s.utilities), g.actual.asset)
    then LegacyDecision(s, g.shadow, c).target else 0
  }

  /** The base state moves on every tradable date, whatever the gate says, and on no other. */
  function ShadowAfter(s: Session, shadow: Position, c: Config): (after: Position)
    requires ValidUtilities(s.utilities) && shadow.asset < |s.utilities|
    ensures after.asset < |s.utilities|
  {
    if Tradable(s.utilities) then Next(shadow, LegacyDecision(s, shadow, c).target) else shadow
  }

  /** The cash-gate policy: the state dictionary that outlives the folds, and one decision. */
  class CashGatePolicy {
    var position: nat
    var holding: nat

    constructor ()
      ensures position == 0 && holding == 0
    {
      position := 0;
      holding := 0;
    }

    method Answer(s: Session, current: Position, c: Config, gate: Gate) returns (target: nat, score: Utility)
      requires ValidUtilities(s.utilities) && position < |s.utilities|
      modifies this
      ensures target == GatedTarget(s, GateState(old(Position(position, holding)), current), c, gate)
      ensures Position(position, holding) == ShadowAfter(s, old(Position(position, holding)), c)
      ensures score == if target == 0 then Fin(0.0) else s.utilities[target]
    {
      if !Tradable(s.utilities) {
        return 0, Fin(0.0);
      }
      var shadow := Position(position, holding);
      var base := LegacyDecision(s, shadow, c);
      if base.target == position {
        holding := if base.target > 0 then holding + 1 else 0;
      } else {
        position := base.target;
        holding := if base.target > 0 then 1 else 0;
      }
      if !gate.Accepts(BestScore(s.utilities), current.asset) {
        return 0, Fin(0.0);
      }
      return base.target, base.score;
    }
  }

  /** The gated run: the simulator carries the actual position, the gate its base. */
  function GatedRun(run: seq<Session>, width: nat, c: Config, gate: Gate, n: nat): (g: GateState)
    requires ValidRun(run, width) && n <= |run|
    ensures g.shadow.asset < width && g.actual.asset < width
  {
    if n == 0 then GateState(Position(0, 0), Position(0, 0))
    else
      var before := GatedRun(run, width, c, gate, n - 1);
      var s := run[n - 1];
      GateState(ShadowAfter(s, before.shadow, c), Next(before.actual, GatedTarget(s, before, c, gate)))
  }

  /** Every gated action is cash or the base action. */
  lemma GatedActionIsCashOrBase(run: seq<Session>, width: nat, c: Config, gate: Gate, n: nat)
    requires ValidRun(run, width) && n <= |run|
    ensures var g := GatedRun(run, width, c, gate, n); g.actual.asset == 0 || g.actual.asset == g.shadow.asset
  {
    hide LegacyDecision;
  }

  /** The date is tradable, or the legacy run is in cash anyway. */
  ghost predicate SafeDate(run: seq<Session>, width: nat, c: Config, t: nat)
    requires ValidRun(run, width) && t < |run|
  {
    Tradable(run[t].utilities) || LegacyRun(run, width, c, t) == Position(0, 0)
  }

  ghost predicate SafeDates(run: seq<Session>, width: nat, c: Config, n: nat)
    requires ValidRun(run, width) && n <= |run|
  {
    forall t :: 0 <= t < n ==> SafeDate(run, width, c, t)
  }

  ghost predicate ShadowIsLegacy(run: seq<Session>, width: nat, c: Config, gate: Gate, n: nat)
    requires ValidRun(run, width) && n <= |run|
  {
    GatedRun(run, width, c, gate, n).shadow == LegacyRun(run, width, c, n)
  }

  lemma NoUtilityMeansCash(s: Session, p: Position, c: Config)
    requires ValidUtilities(s.utilities) && p.asset < |s.utilities| && !Tradable(s.utilities)
    ensures LegacyDecision(s, p, c).target == 0
  {
  }

  /** The protected base follows the legacy run for the first n dates, whatever the gate decides, if
      and only if no date without any utility finds the legacy run invested. */
  lemma {:induction false} ShadowIsLegacyRun(run: seq<Session>, width: nat, c: Config, gate: Gate, n: nat)
    requires ValidRun(run, width) && n <= |run|
    ensures SafeDates(run, width, c, n) <==> forall t :: 0 <= t <= n ==> ShadowIsLegacy(run, width, c, gate, t)
  {
    hide LegacyDecision;
    hide Tradable;
    if n > 0 {
      ShadowIsLegacyRun(run, width, c, gate, n - 1);
      var s := run[n - 1];
      var p := LegacyRun(run, width, c, n - 1);
      if !Tradable(s.utilities) {
        NoUtilityMeansCash(s, p, c);
        assert LegacyRun(run, width, c, n) == Position(0, 0);
      }
      assert ShadowIsLegacy(run, width, c, gate, n - 1) ==>
          (ShadowIsLegacy(run, width, c, gate, n) <==> SafeDate(run, width, c, n - 1));
    }
  }

  /** One asset is entered and then has no utility for a date: legacy goes to cash, the base stays. */
  lemma ShadowOutlivesLegacy(c: Config, gate: Gate)
    requires c == Config(0, 0.0, 0.0, 0.0)
    ensures var run := [Session([Fin(0.0), Fin(1.0)], 0.0), Session([Fin(0.0), NegInf], 0.0)];
            && ValidRun(run, 2)
            && GatedRun(run, 2, c, gate, 2).shadow == Position(1, 1)
            && LegacyRun(run, 2, c, 2) == Position(0, 0)
  {
    var first, second := Session([Fin(0.0), Fin(1.0)], 0.0), Session([Fin(0.0), NegInf], 0.0);
    var run := [first, second];
    assert first.utilities[1].Fin?;
    assert ArgMax(first.utilities) == 1;
    assert 1 in Ranked(first.utilities, 2);
    assert LegacyRun(run, 2, c, 0) == Position(0, 0) && GatedRun(run, 2, c, gate, 0).shadow == Position(0, 0);
    assert LegacyRun(run, 2, c, 1) == Position(1, 1) && GatedRun(run, 2, c, gate, 1).shadow == Position(1, 1);
    assert !Tradable(second.utilities);
    NoUtilityMeansCash(second, Position(1, 1), c);
  }

  /** The gate accepts on every tradable date. */
  ghost predicate AcceptsAt(run: seq<Session>, width: nat, c: Config, gate: Gate, t: nat)
    requires ValidRun(run, width) && t < |run|
  {
    Tradable(run[t].utilities) ==>
      gate.Accepts(BestScore(run[t].utilities), GatedRun(run, width, c, gate, t).actual.asset)
  }

  /** A gate that accepts every date with a utility leaves the legacy run as it was. */
  lemma {:induction false} AcceptingGateIsLegacy(run: seq<Session>, width: nat, c: Config, gate: Gate, n: nat)
    requires ValidRun(run, width) && n <= |run| && SafeDates(run, width, c, n)
    requires forall t :: 0 <= t < n ==> AcceptsAt(run, width, c, gate, t)
    ensures GatedRun(run, width, c, gate, n) == GateState(LegacyRun(run, width, c, n), LegacyRun(run, width, c, n))
  {
    hide LegacyDecision;
    hide Tradable;
    if n > 0 {
      AcceptingGateIsLegacy(run, width, c, gate, n - 1);
      ShadowIsLegacyRun(run, width, c, gate, n);
      assert SafeDate(run, width, c, n - 1) && AcceptsAt(run, width, c, gate, n - 1);
      if !Tradable(run[n - 1].utilities) {
        NoUtilityMeansCash(run[n - 1], LegacyRun(run, width, c, n - 1), c);
      }
    }
  }

  /** The date has a utility, and the best one reaches a level. */
  predicate Reaches(s: Session, level: real) {
    Tradable(s.utilities) && BestScore(s.utilities) >= level
  }

  ghost predicate InCash(run: seq<Session>, width: nat, c: Config, gate: Gate, n: nat)
    requires ValidRun(run, width) && n <= |run|
  {
    GatedRun(run, width, c, gate, n).actual.asset == 0
  }

  ghost predicate OnBase(run: seq<Session>, width: nat, c: Config, gate: Gate, n: nat)
    requires ValidRun(run, width) && n <= |run|
  {
    var g := GatedRun(run, width, c, gate, n);
    g.actual.asset == g.shadow.asset
  }

  /** The best score of date t keeps a position, and the base has one. */
  ghost predicate Carries(run: seq<Session>, width: nat, c: Config, gate: Gate, t: nat)
    requires ValidRun(run, width) && t < |run|
  {
    Reaches(run[t], gate.exit) && GatedRun(run, width, c, gate, t).shadow.asset > 0
  }

  lemma GateStep(run: seq<Session>, width: nat, c: Config, gate: Gate, t: nat)
    requires ValidRun(run, width) && t < |run|
    ensures InCash(run, width, c, gate, t) && !Reaches(run[t], gate.entry) ==> InCash(run, width, c, gate, t + 1)
    ensures OnBase(run, width, c, gate, t) && Carries(run, width, c, gate, t) ==> OnBase(run, width, c, gate, t + 1)
  {
    hide LegacyDecision, Tradable, BestScore;
  }

  lemma {:induction false} StaysInCash(run: seq<Session>, width: nat, c: Config, gate: Gate, a: nat, n: nat)
    requires ValidRun(run, width) && a <= n <= |run| && InCash(run, width, c, gate, a)
    requires forall t :: a <= t < n ==> !Reaches(run[t], gate.entry)
    ensures InCash(run, width, c, gate, n)
    decreases n
  {
    hide InCash, Reaches;
    if a < n {
      StaysInCash(run, width, c, gate, a, n - 1);
      GateStep(run, width, c, gate, n - 1);
    }
  }

  lemma {:induction false} StaysOnBase(run: seq<Session>, width: nat, c: Config, gate: Gate, a: nat, n: nat)
    requires ValidRun(run, width) && a <= n <= |run| && OnBase(run, width, c, gate, a)
    requires forall t :: a <= t < n ==> Carries(run, width, c, gate, t)
    ensures OnBase(run, width, c, gate, n)
    decreases n
  {
    hide OnBase, Carries;
    if a < n {
      StaysOnBase(run, width, c, gate, a, n - 1);
      GateStep(run, width, c, gate, n - 1);
    }
  }

  /** The gate in both directions, for the best score of a date: the run takes what the base takes if that
      score reaches the exit threshold while invested, the entry threshold while in cash, and otherwise
      cash; without any utility it takes cash and the base stays. */
  lemma GateDecides(run: seq<Session>, width: nat, c: Config, gate: Gate, t: nat, best: real)
    requires ValidRun(run, width) && t < |run|
    requires var u := run[t].utilities;
             Tradable(u) ==>
               && (exists k :: 0 < k < |u| && u[k] == Fin(best))
               && forall k :: 0 < k < |u| && u[k].Fin? ==> u[k].value <= best
    ensures var before, after := GatedRun(run, width, c, gate, t), GatedRun(run, width, c, gate, t + 1);
            && (Tradable(run[t].utilities) ==>
                  && after.shadow == Next(before.shadow, LegacyDecision(run[t], before.shadow, c).target)
                  && after.actual.asset == if best >= (if before.actual.asset > 0 then gate.exit else gate.entry)
                                           then after.shadow.asset else 0)
            && (!Tradable(run[t].utilities) ==> after.shadow == before.shadow && after.actual.asset == 0)
  {
    hide LegacyDecision;
    if Tradable(run[t].utilities) {
      var score := BestScore(run[t].utilities);
      hide BestScore;
      assert score == best;
    }
  }

  /** Hysteresis over a whole stretch of a run: from cash the run stays in cash on every date until a
      best score reaches the entry threshold, whatever the exit threshold is; and once invested it
      holds what the base holds, on every date, until the best score falls below the exit threshold or
      the base itself was in cash, whatever the entry threshold is. */
  lemma GateHysteresis(run: seq<Session>, width: nat, c: Config, gate: Gate, a: nat, b: nat)
    requires ValidRun(run, width) && a <= b <= |run|
    ensures InCash(run, width, c, gate, a) && (forall t :: a <= t < b ==> !Reaches(run[t], gate.entry)) ==>
              forall n :: a <= n <= b ==> InCash(run, width, c, gate, n)
    ensures !InCash(run, width, c, gate, a) && (forall t :: a <= t < b ==> Carries(run, width, c, gate, t)) ==>
              forall n :: a <= n <= b ==> OnBase(run, width, c, gate, n)
  {
    InvestedIsOnBase(run, width, c, gate, a);
    hide InCash, OnBase, Carries, Reaches;
    if InCash(run, width, c, gate, a) && forall t :: a <= t < b ==> !Reaches(run[t], gate.entry) {
      forall n | a <= n <= b
        ensures InCash(run, width, c, gate, n)
      {
        StaysInCash(run, width, c, gate, a, n);
      }
    }
    if !InCash(run, width, c, gate, a) && forall t :: a <= t < b ==> Carries(run, width, c, gate, t) {
      forall n | a <= n <= b
        ensures OnBase(run, width, c, gate, n)
      {
        StaysOnBase(run, width, c, gate, a, n);
      }
    }
  }

  lemma InvestedIsOnBase(run: seq<Session>, width: nat, c: Config, gate: Gate, n: nat)
    requires ValidRun(run, width) && n <= |run|
    ensures InCash(run, width, c, gate, n) || OnBase(run, width, c, gate, n)
  {
    hide GatedRun;
    GatedActionIsCashOrBase(run, width, c, gate, n);
  }

  ghost predicate BaseInCash(run: seq<Session>, width: nat, c: Config, gate: Gate, n: nat)
    requires ValidRun(run, width) && n <= |run|
  {
    GatedRun(run, width, c, gate, n).shadow.asset == 0
  }

  ghost predicate BaseWasInCash(run: seq<Session>, width: nat, c: Config, gate: Gate, a: nat, b: nat)
    requires ValidRun(run, width) && a <= b <= |run|
  {
    exists t :: a <= t <= b && BaseInCash(run, width, c, gate, t)
  }

  /** The best score lies between the thresholds: it keeps a position and enters none. */
  predicate InBand(s: Session, gate: Gate) {
    Reaches(s, gate.exit) && !Reaches(s, gate.entry)
  }

  lemma BaseInCashIsCash(run: seq<Session>, width: nat, c: Config, gate: Gate, n: nat)
    requires ValidRun(run, width) && n <= |run|
    ensures BaseInCash(run, width, c, gate, n) ==> InCash(run, width, c, gate, n)
    ensures !BaseInCash(run, width, c, gate, n) && OnBase(run, width, c, gate, n) ==> !InCash(run, width, c, gate, n)
  {
    hide GatedRun;
    InvestedIsOnBase(run, width, c, gate, n);
  }

  lemma CarriedInBand(run: seq<Session>, width: nat, c: Config, gate: Gate, t: nat)
    requires ValidRun(run, width) && t < |run| && InBand(run[t], gate) && !BaseInCash(run, width, c, gate, t)
    ensures Carries(run, width, c, gate, t)
  {
    hide GatedRun, Reaches;
  }

  /** Inside the band the gate changes nothing by itself: a run is in cash at its end exactly when it came
      in with cash or the base was in cash on the way. So it never enters, and leaves at most once. */
  lemma NoFlapping(run: seq<Session>, width: nat, c: Config, gate: Gate, a: nat, b: nat)
    requires ValidRun(run, width) && a <= b <= |run|
    requires forall t :: a <= t < b ==> InBand(run[t], gate)
    ensures InCash(run, width, c, gate, b) <==>
              InCash(run, width, c, gate, a) || BaseWasInCash(run, width, c, gate, a, b)
  {
    hide GatedRun, InCash, OnBase, Reaches, BaseInCash, Carries;
    BaseInCashIsCash(run, width, c, gate, b);
    if InCash(run, width, c, gate, a) {
      StaysInCash(run, width, c, gate, a, b);
    } else if t :| a <= t <= b && BaseInCash(run, width, c, gate, t) {
      BaseInCashIsCash(run, width, c, gate, t);
      StaysInCash(run, width, c, gate, t, b);
    } else {
      forall t | a <= t < b
        ensures Carries(run, width, c, gate, t)
      {
        CarriedInBand(run, width, c, gate, t);
      }
      GateHysteresis(run, width, c, gate, a, b);
    }
  }
}
