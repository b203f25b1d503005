/**
 The ring replay buffer of engine/research_challengers.py.

 Main results: after any number of adds the buffer holds exactly the most recent rows, one per slot,
 with the six parallel arrays aligned (ReplayBuffer.Add, Sample).
 */
module Replay {
  import opened Common
  import opened NStep

  /** One row across the six arrays; done is stored as a number. */
  datatype Stored = Stored(state: State, action: int, reward: real, next: State, done: real, discount: real)

  function Store(t: Transition): Stored {
    Stored(t.state, t.action, t.reward, t.next, if t.done then 1.0 else 0.0, t.discount)
  }

  /** The slot the count-th addition goes to. */
  function SlotOf(count: nat, capacity: nat): nat
    requires capacity > 0
  {
    count % capacity
  }

  lemma SlotAdvances(count: nat, capacity: nat)
    requires capacity > 0
    ensures SlotOf(count + 1, capacity) == SlotOf(SlotOf(count, capacity) + 1, capacity)
  {
    var q, r := count / capacity, count % capacity;
    NextRemainder(count, q, r, capacity);
    NextRemainder(r, 0, r, capacity);
  }

  lemma NextRemainder(x: int, q: int, r: int, capacity: int)
    requires 0 <= r < capacity && x == q * capacity + r
    ensures (x + 1) % capacity == if r + 1 < capacity then r + 1 else 0
  {
    assert (q + 1) * capacity == q * capacity + capacity;
    if r + 1 < capacity {
      RemainderUnique(x + 1, q, r + 1, capacity);
    } else {
      RemainderUnique(x + 1, q + 1, 0, capacity);
    }
  }

  lemma SlotBefore(count: nat, capacity: nat)
    requires capacity > 0
    ensures SlotOf(count, capacity) < capacity
    ensures count < capacity ==> SlotOf(count, capacity) == count
    ensures count >= capacity ==> SlotOf(count - capacity, capacity) == SlotOf(count, capacity)
  {
    if count < capacity {
      RemainderUnique(count, 0, count, capacity);
    } else {
      RemainderUnique(count - capacity, count / capacity - 1, count % capacity, capacity);
    }
  }

  /** An addition in another slot stays among the most recent ones. */
  lemma StillRecent(count: nat, capacity: nat, added: nat)
    requires capacity > 0 && added < count && SlotOf(added, capacity) != SlotOf(count, capacity)
    requires count - (if count <= capacity then count else capacity) <= added
    ensures count + 1 - (if count + 1 <= capacity then count + 1 else capacity) <= added
  {
    hide SlotOf;
    SlotBefore(count, capacity);
  }

  lemma RemainderUnique(x: int, q: int, r: int, capacity: int)
    requires 0 <= r < capacity && x == q * capacity + r
    ensures x % capacity == r
  {
    var d := q - x / capacity;
    assert d * capacity == x % capacity - r;
    MultipleBounds(d, capacity);
  }

  lemma MultipleBounds(d: int, capacity: int)
    requires capacity > 0
    ensures d > 0 ==> d * capacity >= capacity
    ensures d < 0 ==> d * capacity <= -capacity
  {
  }

  /** The rows are the most recent additions, each in its slot; owner says which addition a row is. */
  ghost predicate Ring(rows: seq<Stored>, history: seq<Stored>, owner: seq<nat>, capacity: nat)
    requires capacity > 0
  {
    && |rows| == |owner| == (if |history| <= capacity then |history| else capacity)
    && forall j {:trigger owner[j]} :: 0 <= j < |owner| ==>
         && |history| - |owner| <= owner[j] < |history|
         && SlotOf(owner[j], capacity) == j
         && rows[j] == history[owner[j]]
  }

  /** One addition: at the end until the ring is full, then in place of the oldest. */
  lemma RingAdd(rows: seq<Stored>, history: seq<Stored>, owner: seq<nat>, capacity: nat, row: Stored)
    requires capacity > 0 && Ring(rows, history, owner, capacity)
    ensures var count := |history|; var slot := SlotOf(count, capacity);
            && |rows| == |owner| && slot < capacity && (count < capacity ==> slot == count == |rows|)
            && (count >= capacity ==> |rows| == capacity)
            && Ring(if count < capacity then rows + [row] else rows[slot := row], history + [row],
                    if count < capacity then owner + [count] else owner[slot := count], capacity)
  {
    hide SlotOf;
    var count, slot := |history|, SlotOf(|history|, capacity);
    SlotBefore(count, capacity);
    forall j | 0 <= j < |owner| && j != slot
      ensures count + 1 - (if count + 1 <= capacity then count + 1 else capacity) <= owner[j]
    {
      StillRecent(count, capacity, owner[j]);
    }
  }

  class ReplayBuffer {
    const capacity: nat
    const states: array<State>
    const actions: array<int>
    const rewards: array<real>
    const nextStates: array<State>
    const dones: array<real>
    const discounts: array<real>
    var size: nat
    var position: nat
    /** Everything ever added, and for every filled slot which of it the slot holds. */
    ghost var history: seq<Stored>
    ghost var owner: seq<nat>

    ghost predicate Valid()
      reads this, states, actions, rewards, nextStates, dones, discounts
    {
      && capacity > 0
      && states.Length == actions.Length == rewards.Length == nextStates.Length == dones.Length
         == discounts.Length == capacity
      && states != nextStates && rewards != dones && rewards != discounts && dones != discounts
      && position == SlotOf(|history|, capacity)
      && size == (if |history| <= capacity then |history| else capacity)
      && Ring(Filled(size), history, owner, capacity)
    }

    /** The first n rows. */
    ghost function Filled(n: nat): (rows: seq<Stored>)
      reads states, actions, rewards, nextStates, dones, discounts
      requires states.Length == actions.Length == rewards.Length == nextStates.Length == dones.Length
               == discounts.Length
      requires n <= states.Length
      ensures |rows| == n && forall j :: 0 <= j < n ==> rows[j] == Row(j)
    {
      if n == 0 then [] else Filled(n - 1) + [Row(n - 1)]
    }

    function Row(j: nat): Stored
      reads states, actions, rewards, nextStates, dones, discounts
      requires states.Length == actions.Length == rewards.Length == nextStates.Length == dones.Length
               == discounts.Length
      requires j < states.Length
    {
      Stored(states[j], actions[j], rewards[j], nextStates[j], dones[j], discounts[j])
    }

    constructor (capacity: nat)
      requires capacity > 0
      ensures Valid() && fresh(states) && fresh(actions) && fresh(rewards) && fresh(nextStates)
      ensures fresh(dones) && fresh(discounts)
      ensures history == [] && size == 0 && this.capacity == capacity
    {
      this.capacity := capacity;
      states := new State[capacity](_ => []);
      actions := new int[capacity](_ => 0);
      rewards := new real[capacity](_ => 0.0);
      nextStates := new State[capacity](_ => []);
      dones := new real[capacity](_ => 0.0);
      discounts := new real[capacity](_ => 0.0);
      size, position := 0, 0;
      history, owner := [], [];
    }

    method Put(index: nat, t: Transition)
      requires Valid() && index < capacity
      modifies states, actions, rewards, nextStates, dones, discounts
      ensures Row(index) == Store(t)
      ensures forall j :: 0 <= j < capacity && j != index ==> Row(j) == old(Row(j))
    {
      states[index] := t.state;
      actions[index] := t.action;
      rewards[index] := t.reward;
      nextStates[index] := t.next;
      dones[index] := if t.done then 1.0 else 0.0;
      discounts[index] := t.discount;
    }

    method Add(t: Transition)
      requires Valid()
      modifies this, states, actions, rewards, nextStates, dones, discounts
      ensures Valid()
      ensures history == old(history) + [Store(t)]
      ensures Row(old(position)) == Store(t)
    {
      hide SlotOf, Store, Ring, ReplayBuffer.Row, ReplayBuffer.Filled;
      var index := position;
      ghost var before, count := Filled(size), |history|;
      RingAdd(before, history, owner, capacity, Store(t));
      SlotAdvances(count, capacity);
      Put(index, t);
      position := SlotOf(position + 1, capacity);
      size := if size + 1 <= capacity then size + 1 else capacity;
      owner := if |owner| < capacity then owner + [count] else owner[index := count];
      history := history + [Store(t)];
      assert Filled(size) == if count < capacity then before + [Store(t)] else before[index := Store(t)];
    }

    /** Rows drawn by index; every one of them is among the size most recent additions. */
    method Sample(indices: seq<nat>) returns (rows: seq<Stored>)
      requires Valid() && forall k :: 0 <= k < |indices| ==> indices[k] < size
      ensures |rows| == |indices|
      ensures forall k :: 0 <= k < |rows| ==> rows[k] in history[|history| - size..]
      ensures forall k :: 0 <= k < |rows| ==> rows[k] == Row(indices[k])
    {
      rows := [];
      var i := 0;
      while i < |indices|
        invariant 0 <= i <= |indices| && |rows| == i
        invariant forall k :: 0 <= k < i ==> rows[k] == Row(indices[k]) && rows[k] in history[|history| - size..]
      {
        var j := indices[i];
        ghost var recent := history[|history| - size..];
        assert Filled(size)[j] == history[owner[j]] == recent[owner[j] - (|history| - size)];
        rows := rows + [Row(j)];
        i := i + 1;
      }
    }
  }
}
