/**
 The training loop of engine/research_challengers.py around its accumulator and replay buffer.

 Main results: the loop never leaves the date range, ends every episode exactly at its last date and
 carries state, position and holding from step to step (RunTraining); the buffer is given exactly the
 n-step emissions of that run, and the target of every sampled row is the value of the state of a step
 of the run (TrainingTargets).
 */
module Training {
  import opened Common
  import opened NStep
  import opened Replay

  // ---------------------------------------------------------------- the episode cursor

  datatype Visit = Visit(index: nat, done: bool)

  function EpisodeLength(dates: nat, episodeDays: nat): int {
    MinInt(episodeDays, MaxInt(20, dates - 2))
  }

  function MaxStart(dates: nat, episodeDays: nat): int {
    MaxInt(1, dates - EpisodeLength(dates, episodeDays) - 1)
  }

  function EpisodeEnd(dates: nat, episodeDays: nat, start: nat): int {
    MinInt(dates - 1, start + EpisodeLength(dates, episodeDays))
  }

  /** A visit belongs to the episode that began at start, and is its last exactly when done. */
  predicate InEpisode(dates: nat, episodeDays: nat, start: nat, v: Visit) {
    && start <= v.index < EpisodeEnd(dates, episodeDays, start)
    && (v.done <==> v.index + 1 == EpisodeEnd(dates, episodeDays, start))
  }

  /** Position and holding carried from step to step. */
  datatype Held = Held(position: nat, holding: nat) {
    function After(action: nat): Held {
      Held(action, if action == position && action > 0 then holding + 1 else if action > 0 then 1 else 0)
    }
  }

  /** What the loop does not compute itself: the cached state of a date with a position, the explored or
      greedy action, and the reward of a step. */
  datatype Learner = Learner(stateAt: (nat, Held) -> State, choose: (nat, State) -> nat,
                             reward: (nat, nat, nat) -> real, minHolding: int)
  {
    /** The action taken: the choice, unless the position is still in its minimum holding. */
    function Action(k: nat, index: nat, h: Held): nat {
      var action := choose(k, stateAt(index, h));
      if h.position > 0 && h.holding < minHolding && action != h.position then h.position else action
    }

    function StepAt(k: nat, v: Visit, h: Held): Step {
      var action := Action(k, v.index, h);
      Step(stateAt(v.index, h), action, reward(k, h.position, action), stateAt(v.index + 1, h.After(action)), v.done)
    }
  }

  /** The visits are in range and in their episodes, and follow each other. */
  ghost predicate Follows(visits: seq<Visit>, episodes: seq<nat>, dates: nat, episodeDays: nat, starts: nat -> nat) {
    && |visits| == |episodes|
    && (forall k :: 0 <= k < |visits| ==>
          visits[k].index + 1 < dates && InEpisode(dates, episodeDays, starts(episodes[k]), visits[k]))
    && (forall k :: 0 < k < |visits| ==> Continues(visits[k - 1], episodes[k - 1], visits[k], episodes[k], starts))
  }

  /** The trace is the learner's steps at these visits with what each found held. */
  ghost predicate Carried(l: Learner, trace: seq<Step>, visits: seq<Visit>, held: seq<Held>) {
    && |trace| == |visits| == |held|
    && (forall k :: 0 <= k < |visits| ==> trace[k] == l.StepAt(k, visits[k], held[k]))
    && (forall k :: 0 <= k < |visits| ==> held[k] == HeldBefore(l, visits, held, k))
  }

  lemma FollowsAppend(visits: seq<Visit>, episodes: seq<nat>, dates: nat, episodeDays: nat, starts: nat -> nat,
                      v: Visit, e: nat)
    requires Follows(visits, episodes, dates, episodeDays, starts)
    requires v.index + 1 < dates && InEpisode(dates, episodeDays, starts(e), v)
    requires visits != [] ==> Continues(visits[|visits| - 1], episodes[|visits| - 1], v, e, starts)
    ensures Follows(visits + [v], episodes + [e], dates, episodeDays, starts)
  {
    hide InEpisode, Continues;
  }

  lemma CarriedAppend(l: Learner, trace: seq<Step>, visits: seq<Visit>, held: seq<Held>, v: Visit, h: Held)
    requires Carried(l, trace, visits, held) && h == HeldBefore(l, visits, held, |visits|)
    ensures Carried(l, trace + [l.StepAt(|trace|, v, h)], visits + [v], held + [h])
    ensures HeldBefore(l, visits + [v], held + [h], |visits| + 1)
            == if v.done then Held(0, 0) else h.After(l.Action(|visits|, v.index, h))
  {
    hide Learner.Action, Learner.StepAt;
    forall k | 0 <= k <= |visits|
      ensures HeldBefore(l, visits + [v], held + [h], k) == HeldBefore(l, visits, held, k)
    {
      HeldBeforeAppend(l, visits, held, v, h, k);
    }
    hide HeldBefore;
    HeldAfterAppend(l, visits, held, v, h);
  }

  lemma HeldBeforeAppend(l: Learner, visits: seq<Visit>, held: seq<Held>, v: Visit, h: Held, k: nat)
    requires k <= |visits| == |held|
    ensures HeldBefore(l, visits + [v], held + [h], k) == HeldBefore(l, visits, held, k)
  {
    hide Learner.Action;
  }

  lemma HeldAfterAppend(l: Learner, visits: seq<Visit>, held: seq<Held>, v: Visit, h: Held)
    requires |visits| == |held|
    ensures HeldBefore(l, visits + [v], held + [h], |visits| + 1)
            == if v.done then Held(0, 0) else h.After(l.Action(|visits|, v.index, h))
  {
    hide Learner.Action;
  }

  // ---------------------------------------------------------------- what is recorded

  /** The rows the buffer is given for the emissions of the accumulator. */
  function Rows(emitted: seq<Transition>): (rows: seq<Stored>)
    ensures |rows| == |emitted| && forall i :: 0 <= i < |emitted| ==> rows[i] == Store(emitted[i])
  {
    if emitted == [] then [] else Rows(emitted[..|emitted| - 1]) + [Store(emitted[|emitted| - 1])]
  }

  /** The accumulator and the buffer are where the steps of the trace leave them. */
  ghost predicate Recorded(trace: seq<Step>, n: nat, gamma: real, pending: seq<Step>, history: seq<Stored>) {
    n > 0 && pending == Run(trace, n, gamma).pending && history == Rows(Run(trace, n, gamma).emitted)
  }

  lemma RecordedAppend(trace: seq<Step>, step: Step, n: nat, gamma: real, pending: seq<Step>, history: seq<Stored>)
    requires Recorded(trace, n, gamma, pending, history)
    ensures var a := AppendStep(pending, step, n, gamma);
            Recorded(trace + [step], n, gamma, a.pending, history + Rows(a.emitted))
  {
    hide AppendStep;
    assert (trace + [step])[..|trace|] == trace;
    var before, a := Run(trace, n, gamma), AppendStep(pending, step, n, gamma);
    assert Rows(before.emitted + a.emitted) == Rows(before.emitted) + Rows(a.emitted);
  }

  /** At the end of an episode nothing is pending, so that clearing the accumulator discards nothing. */
  lemma NothingPending(trace: seq<Step>, n: nat, gamma: real, pending: seq<Step>, history: seq<Stored>)
    requires Recorded(trace, n, gamma, pending, history) && trace != [] && trace[|trace| - 1].done
    ensures pending == []
  {
    EpisodeEndFlushes(trace, n, gamma);
  }

  /** One step of the loop: what the accumulator emits is added to the buffer. */
  method Record(accumulator: NStepAccumulator, replay: ReplayBuffer, step: Step, ghost trace: seq<Step>)
    requires replay.Valid() && accumulator.nStep > 0
    requires Recorded(trace, accumulator.nStep, accumulator.gamma, accumulator.pending, replay.history)
    modifies accumulator`pending
    modifies replay, replay.states, replay.actions, replay.rewards, replay.nextStates, replay.dones, replay.discounts
    ensures replay.Valid() && old(replay.history) <= replay.history
    ensures Recorded(trace + [step], accumulator.nStep, accumulator.gamma, accumulator.pending, replay.history)
  {
    hide Recorded, AppendStep, ReplayBuffer.Valid;
    RecordedAppend(trace, step, accumulator.nStep, accumulator.gamma, accumulator.pending, replay.history);
    var emitted := accumulator.Append(step);
    AddEach(replay, emitted);
  }

  method AddEach(replay: ReplayBuffer, emitted: seq<Transition>)
    requires replay.Valid()
    modifies replay, replay.states, replay.actions, replay.rewards, replay.nextStates, replay.dones, replay.discounts
    ensures replay.Valid() && replay.history == old(replay.history) + Rows(emitted)
  {
    hide ReplayBuffer.Valid;
    for i := 0 to |emitted|
      invariant replay.Valid() && replay.history == old(replay.history) + Rows(emitted[..i])
    {
      replay.Add(emitted[i]);
      assert emitted[..i + 1][..i] == emitted[..i];
    }
    assert emitted[..|emitted|] == emitted;
  }

  // ---------------------------------------------------------------- the training loop

  datatype Setup = Setup(episodeDays: nat, steps: nat, capacity: nat, n: int, gamma: real, learningStarts: nat) {
    predicate Valid() {
      episodeDays >= 1 && capacity >= 1 && learningStarts >= 1
    }

    function Window(): nat { if n >= 1 then n else 1 }
  }

  /** Random rows of a step: indices of filled slots. */
  ghost predicate ValidDraws(draws: (nat, nat) -> seq<nat>) {
    forall k, size, i :: 0 <= i < |draws(k, size)| ==> draws(k, size)[i] < size
  }

  lemma DrawsInRange(draws: (nat, nat) -> seq<nat>, k: nat, size: nat)
    requires ValidDraws(draws)
    ensures forall i :: 0 <= i < |draws(k, size)| ==> draws(k, size)[i] < size
  {
  }

  /** Every row of every batch is in the history of the buffer. */
  ghost predicate Drawn(batches: seq<seq<Stored>>, history: seq<Stored>) {
    forall b, i :: 0 <= b < |batches| && 0 <= i < |batches[b]| ==> batches[b][i] in history
  }

  lemma DrawnLater(batches: seq<seq<Stored>>, history: seq<Stored>, longer: seq<Stored>)
    requires Drawn(batches, history) && history <= longer
    ensures Drawn(batches, longer)
  {
    assert forall row :: row in history ==> row in longer;
  }

  /** A training run, for given random episode starts and draws. Step k reads the dates index and
      index + 1; inside an episode the next step starts where this one ended, with what it held; an
      episode starts in cash. The buffer has been given exactly the emissions of the run, in order, and
      every batch consists of such rows. */
  method RunTraining(l: Learner, dates: nat, setup: Setup, starts: nat -> nat, draws: (nat, nat) -> seq<nat>)
    returns (trace: seq<Step>, visits: seq<Visit>, batches: seq<seq<Stored>>, replay: ReplayBuffer,
             ghost episodes: seq<nat>, ghost held: seq<Held>)
    requires dates >= 2 && setup.Valid() && ValidDraws(draws)
    requires forall k :: starts(k) < MaxStart(dates, setup.episodeDays)
    ensures |trace| == setup.steps
    ensures Follows(visits, episodes, dates, setup.episodeDays, starts)
    ensures Carried(l, trace, visits, held)
    ensures Chained(trace)
    ensures replay.Valid() && replay.history == Rows(Run(trace, setup.Window(), setup.gamma).emitted)
    ensures Drawn(batches, replay.history)
  {
    hide InEpisode, Follows, Carried, HeldBefore, Learner.Action, Learner.StepAt, Chained, Recorded, Drawn;
    hide ReplayBuffer.Valid, ValidDraws, EpisodeEnd, MaxStart, Continues;
    replay := new ReplayBuffer(setup.capacity);
    var accumulator := new NStepAccumulator(setup.n, setup.gamma);
    var episode := 0;
    var index := starts(0);
    var end := EpisodeEnd(dates, setup.episodeDays, index);
    StartInRange(dates, setup.episodeDays, index);
    var position: nat, holding: nat := 0, 0;
    trace, visits, batches, episodes, held := [], [], [], [], [];
    NothingYet(l, dates, setup, starts);
    while |trace| < setup.steps
      invariant |trace| == |visits| == |episodes| == |held| <= setup.steps
      invariant end == EpisodeEnd(dates, setup.episodeDays, starts(episode))
      invariant starts(episode) <= index < end <= dates - 1
      invariant visits != [] ==>
                  Continues(visits[|visits| - 1], episodes[|visits| - 1], Visit(index, false), episode, starts)
      invariant Follows(visits, episodes, dates, setup.episodeDays, starts)
      invariant Carried(l, trace, visits, held)
      invariant Held(position, holding) == HeldBefore(l, visits, held, |visits|)
      invariant fresh(accumulator) && fresh(replay) && fresh(replay.states) && fresh(replay.actions)
      invariant fresh(replay.rewards) && fresh(replay.nextStates) && fresh(replay.dones) && fresh(replay.discounts)
      invariant accumulator.nStep == setup.Window() && accumulator.gamma == setup.gamma && replay.Valid()
      invariant Recorded(trace, setup.Window(), setup.gamma, accumulator.pending, replay.history)
      invariant Drawn(batches, replay.history)
    {
      var h := Held(position, holding);
      var v := Visit(index, index + 1 >= end);
      VisitInEpisode(dates, setup.episodeDays, starts(episode), v);
      if visits != [] {
        SameVisit(visits, episodes, index, v.done, episode, starts);
      }
      FollowsAppend(visits, episodes, dates, setup.episodeDays, starts, v, episode);
      CarriedAppend(l, trace, visits, held, v, h);
      var k := |trace|;
      var action := l.Action(k, index, h);
      var step := l.StepAt(k, v, h);
      ghost var before := replay.history;
      Record(accumulator, replay, step, trace);
      DrawnLater(batches, before, replay.history);
      trace := trace + [step];
      if replay.size >= setup.learningStarts {
        DrawsInRange(draws, k, replay.size);
        var batch := replay.Sample(draws(k, replay.size));
        DrawnAppend(batches, batch, replay.history);
        batches := batches + [batch];
      }
      holding := if action == position && action > 0 then holding + 1 else if action > 0 then 1 else 0;
      position := action;
      visits, episodes, held := visits + [v], episodes + [episode], held + [h];
      NextVisit(v, episode, starts);
      index := index + 1;
      if v.done {
        position, holding := 0, 0;
        StepIsDone(l, k, v, h);
        NothingPending(trace, setup.Window(), setup.gamma, accumulator.pending, replay.history);
        accumulator.Clear();
        episode := episode + 1;
        index := starts(episode);
        end := EpisodeEnd(dates, setup.episodeDays, index);
        StartInRange(dates, setup.episodeDays, index);
      }
    }
    ContinuedIsChained(l, trace, visits, episodes, held, dates, setup.episodeDays, starts);
    RecordedHistory(trace, setup.Window(), setup.gamma, accumulator.pending, replay.history);
  }

  lemma StartInRange(dates: nat, episodeDays: nat, start: nat)
    requires dates >= 2 && episodeDays >= 1 && start < MaxStart(dates, episodeDays)
    ensures start < EpisodeEnd(dates, episodeDays, start) <= dates - 1
  {
  }

  lemma NextVisit(v: Visit, episode: nat, starts: nat -> nat)
    ensures !v.done ==> Continues(v, episode, Visit(v.index + 1, false), episode, starts)
    ensures v.done ==> Continues(v, episode, Visit(starts(episode + 1), false), episode + 1, starts)
  {
  }

  lemma SameVisit(visits: seq<Visit>, episodes: seq<nat>, index: nat, done: bool, episode: nat, starts: nat -> nat)
    requires |visits| == |episodes| && visits != []
    requires Continues(visits[|visits| - 1], episodes[|visits| - 1], Visit(index, false), episode, starts)
    ensures Continues(visits[|visits| - 1], episodes[|visits| - 1], Visit(index, done), episode, starts)
  {
  }

  lemma DrawnAppend(batches: seq<seq<Stored>>, batch: seq<Stored>, history: seq<Stored>)
    requires Drawn(batches, history) && forall i :: 0 <= i < |batch| ==> batch[i] in history
    ensures Drawn(batches + [batch], history)
  {
  }

  lemma StepIsDone(l: Learner, k: nat, v: Visit, h: Held)
    ensures l.StepAt(k, v, h).done == v.done
  {
    hide Learner.Action;
  }

  lemma RecordedHistory(trace: seq<Step>, n: nat, gamma: real, pending: seq<Step>, history: seq<Stored>)
    requires Recorded(trace, n, gamma, pending, history)
    ensures n > 0 && history == Rows(Run(trace, n, gamma).emitted)
  {
  }

  lemma NothingYet(l: Learner, dates: nat, setup: Setup, starts: nat -> nat)
    ensures Follows([], [], dates, setup.episodeDays, starts) && Carried(l, [], [], [])
            && HeldBefore(l, [], [], 0) == Held(0, 0)
    ensures Recorded([], setup.Window(), setup.gamma, [], []) && Drawn([], [])
  {
  }

  /** What is held before step k: nothing at the start of an episode, else what step k - 1 left. */
  ghost function HeldBefore(l: Learner, visits: seq<Visit>, held: seq<Held>, k: nat): Held
    requires k <= |visits| && k <= |held|
  {
    if k == 0 || visits[k - 1].done then Held(0, 0)
    else held[k - 1].After(l.Action(k - 1, visits[k - 1].index, held[k - 1]))
  }

  lemma ContinuedIsChained(l: Learner, trace: seq<Step>, visits: seq<Visit>, episodes: seq<nat>, held: seq<Held>,
                           dates: nat, episodeDays: nat, starts: nat -> nat)
    requires Follows(visits, episodes, dates, episodeDays, starts) && Carried(l, trace, visits, held)
    ensures Chained(trace)
  {
    hide Learner.Action, HeldBefore, InEpisode;
    forall i | 0 <= i < |trace| - 1 && !trace[i].done
      ensures trace[i].next == trace[i + 1].state
    {
      HeldIsCarried(l, visits, held, i + 1);
      assert Continues(visits[(i + 1) - 1], episodes[(i + 1) - 1], visits[i + 1], episodes[i + 1], starts);
    }
  }

  lemma HeldIsCarried(l: Learner, visits: seq<Visit>, held: seq<Held>, k: nat)
    requires 0 < k <= |visits| && k <= |held| && !visits[k - 1].done
    ensures HeldBefore(l, visits, held, k) == held[k - 1].After(l.Action(k - 1, visits[k - 1].index, held[k - 1]))
  {
  }

  /** The steps of a run in its own terms: each takes the choice unless the position is still in its minimum
      holding, is done exactly where its visit is, and hands on position and holding; holding counts the
      steps since the position was taken. */
  lemma TrainingActions(l: Learner, trace: seq<Step>, visits: seq<Visit>, held: seq<Held>, k: nat)
    requires Carried(l, trace, visits, held) && k < |trace|
    ensures var h := held[k]; var choice := l.choose(k, l.stateAt(visits[k].index, h));
            && trace[k].action == (if h.position > 0 && h.holding < l.minHolding then h.position else choice)
            && trace[k].state == l.stateAt(visits[k].index, h) && trace[k].done == visits[k].done
            && trace[k].reward == l.reward(k, h.position, trace[k].action)
    ensures k == 0 || trace[k - 1].done ==> held[k] == Held(0, 0)
    ensures k > 0 && !trace[k - 1].done ==>
              && held[k].position == trace[k - 1].action
              && held[k].holding == (if trace[k - 1].action == 0 then 0
                                     else if trace[k - 1].action == held[k - 1].position then held[k - 1].holding + 1
                                     else 1)
  {
    if k > 0 {
      assert trace[k - 1] == l.StepAt(k - 1, visits[k - 1], held[k - 1]);
    }
  }

  /** No episode is cut short by the end of the history: with at least 22 dates every one of them has
      exactly the episode days, or all dates but two if that is less. */
  lemma EpisodesAreFull(dates: nat, episodeDays: nat, start: nat)
    requires dates >= 2 && episodeDays >= 1 && start < MaxStart(dates, episodeDays)
    ensures EpisodeEnd(dates, episodeDays, start) - start
            == if dates >= 22 then MinInt(episodeDays, dates - 2) else MinInt(episodeDays, MinInt(20, dates - 1))
    ensures EpisodeEnd(dates, episodeDays, start) <= dates - 1
  {
  }

  // ---------------------------------------------------------------- the targets

  /** The target a row is trained on, with a value for its next state. */
  function Target(row: Stored, v: State -> real): real {
    row.reward + row.discount * (1.0 - row.done) * v(row.next)
  }

  lemma TargetIsBootstrap(t: Transition, v: State -> real)
    ensures Target(Store(t), v) == Bootstrap(t, v)
  {
    assert t.discount * 0.0 * v(t.next) == 0.0 && Scaled(t.discount, 0.0) == 0.0;
    assert t.discount * 1.0 * v(t.next) == Scaled(t.discount, v(t.next));
  }

  /** Every row the buffer is given in a training run, hence every row of every batch, belongs to a step
      of the run, and its target is the value of that step's state, for any value function that satisfies
      the one-step Bellman equation along the run. */
  lemma TrainingTargets(trace: seq<Step>, n: nat, gamma: real, v: State -> real, row: Stored)
    requires n > 0 && Chained(trace) && SatisfiesBellman(trace, gamma, v)
    requires row in Rows(Run(trace, n, gamma).emitted)
    ensures exists i :: 0 <= i < |trace| && IsTargetOf(row, trace[i], v)
  {
    hide Chained, SatisfiesBellman, Run, Target, Bootstrap;
    var emitted := Run(trace, n, gamma).emitted;
    var i :| 0 <= i < |emitted| && Rows(emitted)[i] == row;
    BellmanTarget(trace, n, gamma, v, i);
    EmissionStart(trace, n, gamma, i);
    TargetIsBootstrap(emitted[i], v);
    assert IsTargetOf(row, trace[i], v);
  }

  /** The row starts with the step's state and action, and its target is the state's value. */
  predicate IsTargetOf(row: Stored, step: Step, v: State -> real) {
    row.state == step.state && row.action == step.action && Target(row, v) == v(step.state)
  }

  lemma EmissionStart(trace: seq<Step>, n: nat, gamma: real, i: nat)
    requires n > 0 && i < |Run(trace, n, gamma).emitted|
    ensures i < |trace|
    ensures var t := Run(trace, n, gamma).emitted[i]; t.state == trace[i].state && t.action == trace[i].action
  {
    RunIsDeclarative(trace, n, gamma);
    hide Run, Complete;
    assert EmittedAt(trace, n, gamma, i, Run(trace, n, gamma).emitted[i]);
  }

  /** The next visit is the following date of the same episode, or the first of the next one. */
  predicate Continues(v: Visit, e: nat, w: Visit, f: nat, starts: nat -> nat) {
    if v.done then f == e + 1 && w.index == starts(f) else f == e && w.index == v.index + 1
  }

  lemma VisitInEpisode(dates: nat, episodeDays: nat, start: nat, v: Visit)
    requires start <= v.index < EpisodeEnd(dates, episodeDays, start)
    requires v.done <==> v.index + 1 >= EpisodeEnd(dates, episodeDays, start)
    ensures InEpisode(dates, episodeDays, start, v)
  {
  }
}
