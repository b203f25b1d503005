/**
 The n-step accumulator of engine/research_challengers.py.

 Main results: over any sequence of appends, across any number of episodes, the accumulator emits
 each step once, in order, with the window the declarative definition Emit gives it, and holds back
 fewer than n steps of the running episode (RunIsDeclarative, EpisodeEndFlushes); every emitted
 target equals the value of its first state under the one-step Bellman equation (BellmanTarget).
 */
module NStep {
  import opened Common

  type State = seq<real>

  datatype Step = Step(state: State, action: int, reward: real, next: State, done: bool)

  datatype Transition = Transition(state: State, action: int, reward: real, next: State, done: bool, discount: real)

  // ---------------------------------------------------------------- what one emission means

  /** Products by name, so that proofs can treat them as uninterpreted. */
  function Scaled(factor: real, x: real): real { factor * x }

  function Power(gamma: real, k: nat): real {
    if k == 0 then 1.0 else Scaled(gamma, Power(gamma, k - 1))
  }

  /** Steps of the window starting at the first pending step: at most n, cut at the first done. */
  function WindowLength(pending: seq<Step>, n: nat): (k: nat)
    requires pending != [] && n > 0
    ensures 0 < k <= |pending| && k <= n
    ensures forall j :: 0 <= j < k - 1 ==> !pending[j].done
    ensures k == n || k == |pending| || pending[k - 1].done
  {
    if n == 1 || |pending| == 1 || pending[0].done then 1
    else
      var rest := WindowLength(pending[1..], n - 1);
      assert forall j :: 0 < j < rest ==> pending[j] == pending[1..][j - 1];
      1 + rest
  }

  function Discounted(window: seq<Step>, gamma: real): real {
    if window == [] then 0.0
    else window[0].reward + Scaled(gamma, Discounted(window[1..], gamma))
  }

  function Emit(pending: seq<Step>, n: nat, gamma: real): Transition
    requires pending != [] && n > 0
  {
    var k := WindowLength(pending, n);
    Transition(pending[0].state, pending[0].action, Discounted(pending[..k], gamma),
               pending[k - 1].next, pending[k - 1].done, Power(gamma, k))
  }

  /** The window can no longer grow: n steps are there or the episode has ended. */
  predicate Complete(pending: seq<Step>, n: nat) {
    |pending| >= n || HasDone(pending)
  }

  predicate HasDone(steps: seq<Step>) {
    steps != [] && (steps[0].done || HasDone(steps[1..]))
  }

  lemma {:induction false} HasDoneAppend(a: seq<Step>, b: seq<Step>)
    ensures HasDone(a + b) <==> HasDone(a) || HasDone(b)
  {
    if a == [] {
      assert a + b == b;
    } else {
      assert (a + b)[1..] == a[1..] + b;
      HasDoneAppend(a[1..], b);
    }
  }

  lemma {:induction false} WindowStable(pending: seq<Step>, later: seq<Step>, n: nat)
    requires pending != [] && n > 0 && Complete(pending, n)
    ensures WindowLength(pending + later, n) == WindowLength(pending, n)
  {
    assert |pending| == 1 ==> HasDone(pending) == pending[0].done by {
      assert |pending| == 1 ==> pending[1..] == [];
    }
    if n > 1 && !pending[0].done && |pending| > 1 {
      assert (pending + later)[1..] == pending[1..] + later;
      WindowStable(pending[1..], later, n - 1);
    }
  }

  /** What is appended after a window is complete does not change its emission. */
  lemma EmitStable(pending: seq<Step>, later: seq<Step>, n: nat, gamma: real)
    requires pending != [] && n > 0 && Complete(pending, n)
    ensures Emit(pending + later, n, gamma) == Emit(pending, n, gamma)
  {
    WindowStable(pending, later, n);
    var k := WindowLength(pending, n);
    assert (pending + later)[..k] == pending[..k];
  }

  // ---------------------------------------------------------------- a run of appends

  function Drain(pending: seq<Step>, n: nat, gamma: real): seq<Transition>
    requires n > 0
  {
    if pending == [] then [] else [Emit(pending, n, gamma)] + Drain(pending[1..], n, gamma)
  }

  datatype Output = Output(emitted: seq<Transition>, pending: seq<Step>)

  /** One call of append. */
  function AppendStep(pending: seq<Step>, step: Step, n: nat, gamma: real): Output
    requires n > 0
  {
    var all := pending + [step];
    var full := |all| >= n;
    var first := if full then [Emit(all, n, gamma)] else [];
    var rest := if full then all[1..] else all;
    if step.done then Output(first + Drain(rest, n, gamma), []) else Output(first, rest)
  }

  /** All calls of append for a trace of steps, starting empty. */
  function Run(trace: seq<Step>, n: nat, gamma: real): Output
    requires n > 0
  {
    if trace == [] then Output([], [])
    else
      var before := Run(trace[..|trace| - 1], n, gamma);
      var last := AppendStep(before.pending, trace[|trace| - 1], n, gamma);
      Output(before.emitted + last.emitted, last.pending)
  }

  /** The i-th emission is the declarative one of the trace from its i-th step on. */
  ghost predicate EmittedAt(trace: seq<Step>, n: nat, gamma: real, i: nat, t: Transition)
    requires n > 0
  {
    i < |trace| && Complete(trace[i..], n) && t == Emit(trace[i..], n, gamma)
  }

  ghost predicate Declarative(trace: seq<Step>, n: nat, gamma: real, o: Output)
    requires n > 0
  {
    && |o.emitted| + |o.pending| == |trace|
    && o.pending == trace[|o.emitted|..]
    && |o.pending| < n && !HasDone(o.pending)
    && forall i :: 0 <= i < |o.emitted| ==> EmittedAt(trace, n, gamma, i, o.emitted[i])
  }

  lemma EmittedAtLater(trace: seq<Step>, step: Step, n: nat, gamma: real, i: nat, t: Transition)
    requires n > 0 && EmittedAt(trace, n, gamma, i, t)
    ensures EmittedAt(trace + [step], n, gamma, i, t)
  {
    assert (trace + [step])[i..] == trace[i..] + [step];
    HasDoneAppend(trace[i..], [step]);
    EmitStable(trace[i..], [step], n, gamma);
  }

  lemma EmitsFirst(trace: seq<Step>, n: nat, gamma: real, from: nat)
    requires n > 0 && from < |trace| && trace[|trace| - 1].done
    ensures EmittedAt(trace, n, gamma, from, Emit(trace[from..], n, gamma))
  {
    hide Emit;
    LastDoneHasDone(trace[from..]);
  }

  lemma {:induction false} DrainEmits(trace: seq<Step>, n: nat, gamma: real, from: nat)
    requires n > 0 && from <= |trace| && trace != [] && trace[|trace| - 1].done
    ensures var drained := Drain(trace[from..], n, gamma);
            && |drained| == |trace| - from
            && forall i :: 0 <= i < |drained| ==> EmittedAt(trace, n, gamma, from + i, drained[i])
    decreases |trace| - from
  {
    if from < |trace| {
      DrainEmits(trace, n, gamma, from + 1);
      assert trace[from..][1..] == trace[from + 1..];
      EmitsFirst(trace, n, gamma, from);
      hide Emit, EmittedAt;
      var drained, rest := Drain(trace[from..], n, gamma), Drain(trace[from + 1..], n, gamma);
      assert drained == [Emit(trace[from..], n, gamma)] + rest;
      forall i | 0 <= i < |drained|
        ensures EmittedAt(trace, n, gamma, from + i, drained[i])
      {
        if i > 0 {
          assert EmittedAt(trace, n, gamma, from + 1 + (i - 1), rest[i - 1]);
        }
      }
    }
  }

  /** The step's own emissions continue the trace where the previous ones stopped. */
  lemma AppendEmits(trace: seq<Step>, step: Step, n: nat, gamma: real, e: nat)
    requires n > 0 && e <= |trace| && |trace| - e < n && !HasDone(trace[e..])
    ensures var longer := trace + [step]; var a := AppendStep(trace[e..], step, n, gamma);
            && e + |a.emitted| + |a.pending| == |longer|
            && a.pending == longer[e + |a.emitted|..]
            && |a.pending| < n && !HasDone(a.pending)
            && forall i :: 0 <= i < |a.emitted| ==> EmittedAt(longer, n, gamma, e + i, a.emitted[i])
  {
    hide Emit;
    var longer, all := trace + [step], trace[e..] + [step];
    assert all == longer[e..];
    HasDoneAppend(trace[e..], [step]);
    if step.done {
      DrainEmits(longer, n, gamma, e);
      DrainEmits(longer, n, gamma, e + 1);
      assert all[1..] == longer[e + 1..];
    } else {
      assert all != [] && (HasDone(all) <==> all[0].done || HasDone(all[1..]));
      assert all[1..] == longer[e + 1..];
    }
  }

  lemma AppendKeepsDeclarative(trace: seq<Step>, step: Step, n: nat, gamma: real, o: Output)
    requires n > 0 && Declarative(trace, n, gamma, o)
    ensures var a := AppendStep(o.pending, step, n, gamma);
            Declarative(trace + [step], n, gamma, Output(o.emitted + a.emitted, a.pending))
  {
    hide AppendStep;
    hide EmittedAt;
    hide HasDone;
    var e, a := |o.emitted|, AppendStep(o.pending, step, n, gamma);
    AppendEmits(trace, step, n, gamma, e);
    var emitted := o.emitted + a.emitted;
    forall i | 0 <= i < |emitted|
      ensures EmittedAt(trace + [step], n, gamma, i, emitted[i])
    {
      if i < e {
        EmittedAtLater(trace, step, n, gamma, i, emitted[i]);
      } else {
        assert emitted[i] == a.emitted[i - e];
        assert EmittedAt(trace + [step], n, gamma, e + (i - e), a.emitted[i - e]);
      }
    }
  }

  /** Each step is emitted at most once and in order, with its declarative window; what is held back
      is the running episode's last steps, fewer than n. */
  lemma {:induction false} RunIsDeclarative(trace: seq<Step>, n: nat, gamma: real)
    requires n > 0
    ensures Declarative(trace, n, gamma, Run(trace, n, gamma))
  {
    if trace != [] {
      var before := trace[..|trace| - 1];
      RunIsDeclarative(before, n, gamma);
      AppendKeepsDeclarative(before, trace[|trace| - 1], n, gamma, Run(before, n, gamma));
      assert before + [trace[|trace| - 1]] == trace;
    }
  }

  lemma LastDoneHasDone(steps: seq<Step>)
    requires steps != []
    ensures steps[|steps| - 1].done ==> HasDone(steps)
  {
    var last := |steps| - 1;
    assert steps == steps[..last] + [steps[last]];
    HasDoneAppend(steps[..last], [steps[last]]);
  }

  /** When an episode ends every step so far has been emitted, so clearing the accumulator there
      discards nothing. */
  lemma EpisodeEndFlushes(trace: seq<Step>, n: nat, gamma: real)
    requires n > 0 && trace != [] && trace[|trace| - 1].done
    ensures Run(trace, n, gamma).pending == [] && |Run(trace, n, gamma).emitted| == |trace|
  {
    RunIsDeclarative(trace, n, gamma);
    var o := Run(trace, n, gamma);
    if o.pending != [] {
      LastDoneHasDone(o.pending);
    }
  }

  // ---------------------------------------------------------------- the Bellman target

  /** Consecutive steps of one episode share their state. */
  ghost predicate Chained(trace: seq<Step>) {
    forall i {:trigger trace[i].next} :: 0 <= i < |trace| - 1 && !trace[i].done ==> trace[i].next == trace[i + 1].state
  }

  function Bootstrap(t: Transition, v: State -> real): real {
    t.reward + Scaled(t.discount, if t.done then 0.0 else v(t.next))
  }

  function OneStep(s: Step, gamma: real, v: State -> real): real {
    s.reward + Scaled(gamma, if s.done then 0.0 else v(s.next))
  }

  ghost predicate SatisfiesBellman(trace: seq<Step>, gamma: real, v: State -> real) {
    forall i {:trigger trace[i].state} :: 0 <= i < |trace| ==> v(trace[i].state) == OneStep(trace[i], gamma, v)
  }

  /** The same facts about a stretch of the trace. */
  lemma Stretch(trace: seq<Step>, from: nat, to: nat, gamma: real, v: State -> real)
    requires from <= to <= |trace| && Chained(trace) && SatisfiesBellman(trace, gamma, v)
    ensures Chained(trace[from..to]) && SatisfiesBellman(trace[from..to], gamma, v)
  {
    var part := trace[from..to];
    forall i | 0 <= i < |part|
      ensures v(part[i].state) == OneStep(part[i], gamma, v)
      ensures i < |part| - 1 && !part[i].done ==> part[i].next == part[i + 1].state
    {
      assert part[i] == trace[from + i];
      assert v(trace[from + i].state) == OneStep(trace[from + i], gamma, v);
      assert i < |part| - 1 ==> part[i + 1] == trace[from + i + 1];
    }
  }

  lemma Distribute(g: real, d: real, p: real, t: real)
    ensures Scaled(g, d + Scaled(p, t)) == Scaled(g, d) + Scaled(Scaled(g, p), t)
    ensures Scaled(g, 0.0) == 0.0 && Scaled(g, 1.0) == g && Scaled(1.0, t) == t
  {
  }

  lemma {:induction false} WindowTelescopes(window: seq<Step>, gamma: real, v: State -> real)
    requires window != [] && Chained(window) && SatisfiesBellman(window, gamma, v)
    requires forall j :: 0 <= j < |window| - 1 ==> !window[j].done
    ensures var last := window[|window| - 1];
            v(window[0].state) == Discounted(window, gamma)
                                  + Scaled(Power(gamma, |window|), if last.done then 0.0 else v(last.next))
  {
    hide Scaled;
    var first, rest, last := window[0], window[1..], window[|window| - 1];
    var tail := if last.done then 0.0 else v(last.next);
    assert v(first.state) == OneStep(first, gamma, v);
    Distribute(gamma, Discounted(rest, gamma), Power(gamma, |rest|), tail);
    if |window| > 1 {
      Stretch(window, 1, |window|, gamma, v);
      WindowTelescopes(rest, gamma, v);
      assert first.next == rest[0].state;
    }
  }

  /** Every emitted n-step target is the value of the state it starts from. */
  lemma BellmanTarget(trace: seq<Step>, n: nat, gamma: real, v: State -> real, i: nat)
    requires n > 0 && Chained(trace) && SatisfiesBellman(trace, gamma, v)
    requires i < |Run(trace, n, gamma).emitted|
    ensures i < |trace| && Bootstrap(Run(trace, n, gamma).emitted[i], v) == v(trace[i].state)
  {
    RunIsDeclarative(trace, n, gamma);
    var t := Run(trace, n, gamma).emitted[i];
    assert EmittedAt(trace, n, gamma, i, t);
    EmissionTarget(trace, n, gamma, v, i, t);
  }

  lemma EmissionTarget(trace: seq<Step>, n: nat, gamma: real, v: State -> real, i: nat, t: Transition)
    requires n > 0 && Chained(trace) && SatisfiesBellman(trace, gamma, v)
    requires EmittedAt(trace, n, gamma, i, t)
    ensures Bootstrap(t, v) == v(trace[i].state)
  {
    hide Scaled;
    hide Discounted;
    hide Power;
    hide Complete;
    var k := WindowLength(trace[i..], n);
    var window := trace[i..i + k];
    assert window == trace[i..][..k];
    Stretch(trace, i, i + k, gamma, v);
    forall j | 0 <= j < k - 1
      ensures !window[j].done
    {
      assert window[j] == trace[i..][j];
    }
    hide Chained;
    hide SatisfiesBellman;
    WindowTelescopes(window, gamma, v);
  }

  // ---------------------------------------------------------------- the accumulator object

  lemma {:induction false} DiscountedAppend(window: seq<Step>, step: Step, gamma: real)
    ensures Discounted(window + [step], gamma)
            == Discounted(window, gamma) + Scaled(Power(gamma, |window|), step.reward)
  {
    hide Scaled;
    if window == [] {
      assert (window + [step])[1..] == [];
      Distribute(gamma, 0.0, 1.0, step.reward);
    } else {
      assert (window + [step])[1..] == window[1..] + [step];
      DiscountedAppend(window[1..], step, gamma);
      Distribute(gamma, Discounted(window[1..], gamma), Power(gamma, |window| - 1), step.reward);
    }
  }

  class NStepAccumulator {
    const nStep: nat
    const gamma: real
    var pending: seq<Step>

    constructor (n: int, gamma: real)
      ensures this.nStep == (if n >= 1 then n else 1) && this.gamma == gamma && pending == []
    {
      this.nStep := if n >= 1 then n else 1;
      this.gamma := gamma;
      pending := [];
    }

    method EmitOne() returns (t: Transition)
      requires pending != [] && nStep > 0
      modifies this`pending
      ensures t == Emit(old(pending), nStep, gamma)
      ensures pending == old(pending)[1..]
    {
      hide Scaled;
      hide Discounted;
      hide Power;
      var p := pending;
      ghost var length := WindowLength(p, nStep);
      var count := if nStep <= |p| then nStep else |p|;
      var first := p[0];
      var finalNext, finalDone := p[count - 1].next, p[count - 1].done;
      var reward := 0.0;
      var offset := 0;
      EmptyWindow(gamma);
      while offset < count
        invariant 0 <= offset <= length <= count <= |p|
        invariant finalNext == p[count - 1].next && finalDone == p[count - 1].done
        invariant count == (if nStep <= |p| then nStep else |p|)
        invariant forall j :: 0 <= j < offset ==> !p[j].done
        invariant reward == Discounted(p[..offset], gamma)
      {
        assert offset < length by {
          assert length == nStep || length == |p| || p[length - 1].done;
        }
        DiscountedAppend(p[..offset], p[offset], gamma);
        assert p[..offset + 1] == p[..offset] + [p[offset]];
        reward := reward + Scaled(Power(gamma, offset), p[offset].reward);
        if p[offset].done {
          assert length == offset + 1;
          count := offset + 1;
          finalNext, finalDone := p[offset].next, true;
          break;
        }
        offset := offset + 1;
      }
      assert count == length;
      t := Transition(first.state, first.action, reward, finalNext, finalDone, Power(gamma, count));
      pending := p[1..];
    }

    method Clear()
      modifies this`pending
      ensures pending == []
    {
      pending := [];
    }

    method Append(step: Step) returns (emitted: seq<Transition>)
      requires nStep > 0
      modifies this`pending
      ensures Output(emitted, pending) == AppendStep(old(pending), step, nStep, gamma)
    {
      pending := pending + [step];
      emitted := [];
      if |pending| >= nStep {
        var t := EmitOne();
        emitted := [t];
      }
      if step.done {
        ghost var start, rest := emitted, pending;
        while pending != []
          invariant emitted + Drain(pending, nStep, gamma) == start + Drain(rest, nStep, gamma)
          decreases |pending|
        {
          ghost var drained := Drain(pending[1..], nStep, gamma);
          var t := EmitOne();
          assert (emitted + [t]) + drained == emitted + ([t] + drained);
          emitted := emitted + [t];
        }
      }
    }
  }

  lemma EmptyWindow(gamma: real)
    ensures Discounted([], gamma) == 0.0
  {
  }
}
