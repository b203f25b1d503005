/**
 The cross-sectional rank signal: cross_sectional_relative_signal of engine/optimized_allocation.py.

 Main results, for two or more finite utilities with any ties: the signal lies in [-1, 1], keeps the
 order and the ties of the utilities, changes its sign when they do, and sums to zero.

 A utility that is not finite is None. Ranks are average ranks: one more than the number of smaller
 values, plus half the number of other equal ones.
 */
module RankSignal {
  import opened Common

  function Finite(values: seq<Option<real>>): (finite: seq<real>)
    ensures forall x :: x in finite <==> Some(x) in values
  {
    if values == [] then []
    else if values[0].Some? then [values[0].value] + Finite(values[1..])
    else Finite(values[1..])
  }

  function CountLess(s: seq<real>, x: real): nat {
    if s == [] then 0 else (if s[0] < x then 1 else 0) + CountLess(s[1..], x)
  }

  function CountEqual(s: seq<real>, x: real): nat {
    if s == [] then 0 else (if s[0] == x then 1 else 0) + CountEqual(s[1..], x)
  }

  /** Series.rank(method="average") of the value x. */
  function AverageRank(s: seq<real>, x: real): real {
    CountLess(s, x) as real + (CountEqual(s, x) as real + 1.0) / 2.0
  }

  /** The signal of one finite value among all finite ones. */
  function SignalOf(finite: seq<real>, x: real): real {
    if |finite| <= 1 then 1.0
    else Ratio(2.0 * (AverageRank(finite, x) - 1.0), (|finite| - 1) as real) - 1.0
  }

  /** The entry of the signal for one entry of the utilities. */
  function Signal(finite: seq<real>, value: Option<real>): Option<real> {
    if value.Some? then Some(SignalOf(finite, value.value)) else None
  }

  function SignalsOf(finite: seq<real>, values: seq<Option<real>>): (signal: seq<Option<real>>)
    ensures |signal| == |values|
    ensures forall i :: 0 <= i < |values| ==> signal[i] == Signal(finite, values[i])
  {
    if values == [] then [] else [Signal(finite, values[0])] + SignalsOf(finite, values[1..])
  }

  /** cross_sectional_relative_signal */
  function RelativeSignal(values: seq<Option<real>>): (signal: seq<Option<real>>)
    ensures |signal| == |values|
    ensures forall i :: 0 <= i < |values| ==> (signal[i].Some? <==> values[i].Some?)
  {
    SignalsOf(Finite(values), values)
  }

  // ---------------------------------------------------------------- ranks as net comparisons

  function Sign(x: real, y: real): int {
    if y < x then 1 else if x < y then -1 else 0
  }

  /** How many values are smaller than x, less how many are larger. */
  function Net(s: seq<real>, x: real): int {
    if s == [] then 0 else Sign(x, s[0]) + Net(s[1..], x)
  }

  lemma {:induction false} NetIsRank(s: seq<real>, x: real)
    ensures 2 * CountLess(s, x) + CountEqual(s, x) == |s| + Net(s, x)
  {
    if s != [] {
      NetIsRank(s[1..], x);
    }
  }

  lemma RatioLessOne(a: real, n: real)
    requires n > 0.0
    ensures Ratio(a, n) - 1.0 == Ratio(a - n, n)
  {
    var q := a / n;
    assert q * n == a;
    assert (q - 1.0) * n == a - n;
    QuotientIs(a - n, n, q - 1.0);
  }

  lemma QuotientIs(a: real, n: real, q: real)
    requires n > 0.0 && q * n == a
    ensures a / n == q
  {
    var p := a / n;
    assert p * n == a;
    assert (p - q) * n == 0.0;
  }

  lemma RatioBounds(a: real, n: real)
    requires n > 0.0 && -n <= a <= n
    ensures -1.0 <= Ratio(a, n) <= 1.0
  {
    var q := a / n;
    assert q * n == a;
    Bounded(q, n);
  }

  lemma Bounded(q: real, n: real)
    requires n > 0.0
    ensures q > 1.0 ==> q * n > n
    ensures q < -1.0 ==> q * n < -n
  {
    var over, under := q - 1.0, -1.0 - q;
    assert over > 0.0 ==> over * n > 0.0;
    assert under > 0.0 ==> under * n > 0.0;
    assert over * n == q * n - n && under * n == -n - q * n;
  }

  lemma RatioOrder(a: real, b: real, n: real)
    requires n > 0.0
    ensures a < b ==> Ratio(a, n) < Ratio(b, n)
    ensures Ratio(-a, n) == -Ratio(a, n)
    ensures Ratio(a + b, n) == Ratio(a, n) + Ratio(b, n)
    ensures Ratio(0.0, n) == 0.0
  {
    var d := b - a;
    assert (a + b) / n == a / n + b / n;
    assert d > 0.0 ==> d / n > 0.0;
    assert b / n == a / n + d / n;
  }

  lemma SignalIsNet(finite: seq<real>, x: real)
    requires |finite| >= 2
    ensures SignalOf(finite, x) == Ratio(Net(finite, x) as real, (|finite| - 1) as real)
  {
    hide Ratio;
    NetIsRank(finite, x);
    var n := (|finite| - 1) as real;
    var doubled := 2.0 * (AverageRank(finite, x) - 1.0);
    assert doubled == (2 * CountLess(finite, x) + CountEqual(finite, x)) as real - 1.0;
    assert doubled - n == Net(finite, x) as real;
    RatioLessOne(doubled, n);
  }

  // ---------------------------------------------------------------- range, order and ties

  lemma {:induction false} NetBounds(s: seq<real>, x: real)
    ensures -|s| <= Net(s, x) <= |s|
    ensures x in s ==> -(|s| - 1) <= Net(s, x) <= |s| - 1
  {
    if s != [] {
      NetBounds(s[1..], x);
    }
  }

  lemma {:induction false} NetIncreases(s: seq<real>, x: real, y: real)
    requires x < y
    ensures Net(s, x) <= Net(s, y)
    ensures x in s ==> Net(s, x) < Net(s, y)
  {
    if s != [] {
      NetIncreases(s[1..], x, y);
    }
  }

  lemma SignalInRange(values: seq<Option<real>>, i: nat)
    requires i < |values| && values[i].Some?
    ensures -1.0 <= RelativeSignal(values)[i].value <= 1.0
    ensures |Finite(values)| == 1 ==> RelativeSignal(values)[i].value == 1.0
  {
    hide Ratio;
    var finite, x := Finite(values), values[i].value;
    assert Some(x) in values;
    if |finite| >= 2 {
      SignalIsNet(finite, x);
      NetBounds(finite, x);
      RatioBounds(Net(finite, x) as real, (|finite| - 1) as real);
    }
  }

  /** The signal orders two finite entries as their utilities do, and ties them exactly with them. */
  lemma SignalKeepsOrder(values: seq<Option<real>>, i: nat, j: nat)
    requires i < |values| && j < |values| && values[i].Some? && values[j].Some?
    ensures values[i].value == values[j].value ==> RelativeSignal(values)[i] == RelativeSignal(values)[j]
    ensures values[i].value < values[j].value <==> RelativeSignal(values)[i].value < RelativeSignal(values)[j].value
  {
    if values[i].value < values[j].value {
      StrictOrder(values, i, j);
    } else if values[j].value < values[i].value {
      StrictOrder(values, j, i);
    }
  }

  lemma {:induction false} TwoDistinct(values: seq<Option<real>>, i: nat, j: nat)
    requires i < |values| && j < |values| && values[i].Some? && values[j].Some? && values[i].value != values[j].value
    ensures |Finite(values)| >= 2
  {
    var finite := Finite(values);
    assert Some(values[i].value) in values && Some(values[j].value) in values;
    assert values[i].value in finite && values[j].value in finite;
  }

  lemma StrictOrder(values: seq<Option<real>>, i: nat, j: nat)
    requires i < |values| && j < |values| && values[i].Some? && values[j].Some? && values[i].value < values[j].value
    ensures RelativeSignal(values)[i].value < RelativeSignal(values)[j].value
  {
    hide Ratio;
    var finite, x, y := Finite(values), values[i].value, values[j].value;
    TwoDistinct(values, i, j);
    assert Some(x) in values;
    NetIncreases(finite, x, y);
    SignalIsNet(finite, x);
    SignalIsNet(finite, y);
    RatioOrder(Net(finite, x) as real, Net(finite, y) as real, (|finite| - 1) as real);
  }

  // ---------------------------------------------------------------- negation

  function Opposite(x: Option<real>): Option<real> {
    if x.Some? then Some(-x.value) else None
  }

  function Negate(values: seq<Option<real>>): (negated: seq<Option<real>>)
    ensures |negated| == |values|
    ensures forall i :: 0 <= i < |values| ==> negated[i] == Opposite(values[i])
  {
    if values == [] then [] else [Opposite(values[0])] + Negate(values[1..])
  }

  lemma {:induction false} NetOfNegated(values: seq<Option<real>>, x: real)
    ensures |Finite(Negate(values))| == |Finite(values)|
    ensures Net(Finite(Negate(values)), -x) == -Net(Finite(values), x)
  {
    if values != [] {
      NetOfNegated(values[1..], x);
      assert Negate(values)[1..] == Negate(values[1..]);
    }
  }

  lemma SignalOfNegatedValue(values: seq<Option<real>>, x: real)
    requires |Finite(values)| >= 2
    ensures SignalOf(Finite(Negate(values)), -x) == -SignalOf(Finite(values), x)
  {
    hide Ratio, Finite, Negate, SignalOf, Net;
    NetOfNegated(values, x);
    SignalIsNet(Finite(values), x);
    SignalIsNet(Finite(Negate(values)), -x);
    RatioOrder(Net(Finite(values), x) as real, 0.0, (|Finite(values)| - 1) as real);
  }

  /** Negating all utilities negates the signal. */
  lemma SignalOfNegated(values: seq<Option<real>>)
    requires |Finite(values)| >= 2
    ensures RelativeSignal(Negate(values)) == Negate(RelativeSignal(values))
  {
    hide RelativeSignal, Finite, Negate, SignalOf, SignalsOf;
    var signal := RelativeSignal(values);
    forall i | 0 <= i < |values|
      ensures RelativeSignal(Negate(values))[i] == Negate(signal)[i]
    {
      SignalAt(values, i);
      SignalAt(Negate(values), i);
      OppositeSignal(values, values[i]);
    }
  }

  lemma OppositeSignal(values: seq<Option<real>>, value: Option<real>)
    requires |Finite(values)| >= 2
    ensures Signal(Finite(Negate(values)), Opposite(value)) == Opposite(Signal(Finite(values), value))
  {
    hide Finite, Negate, SignalOf;
    if value.Some? {
      SignalOfNegatedValue(values, value.value);
    }
  }

  lemma SignalAt(values: seq<Option<real>>, i: nat)
    requires i < |values|
    ensures RelativeSignal(values)[i] == Signal(Finite(values), values[i])
  {
    hide Finite, SignalOf;
  }

  // ---------------------------------------------------------------- the sum

  /** The net comparisons of every x with all of s. */
  function NetSum(xs: seq<real>, s: seq<real>): int {
    if xs == [] then 0 else Net(s, xs[0]) + NetSum(xs[1..], s)
  }

  lemma {:induction false} NetSumOfOneMore(xs: seq<real>, s: seq<real>)
    requires s != []
    ensures NetSum(xs, s) == NetSum(xs, s[1..]) - Net(xs, s[0])
  {
    if xs != [] {
      NetSumOfOneMore(xs[1..], s);
    }
  }

  lemma {:induction false} NetSumIsAntisymmetric(xs: seq<real>, s: seq<real>)
    ensures NetSum(xs, s) == -NetSum(s, xs)
    decreases |s|
  {
    if s == [] {
      NetSumOfNone(xs);
    } else {
      NetSumOfOneMore(xs, s);
      NetSumIsAntisymmetric(xs, s[1..]);
    }
  }

  lemma {:induction false} NetSumOfNone(xs: seq<real>)
    ensures NetSum(xs, []) == 0
  {
    if xs != [] {
      NetSumOfNone(xs[1..]);
    }
  }

  lemma FiniteOfOneMore(x: Option<real>, rest: seq<Option<real>>)
    ensures Finite([x] + rest) == if x.Some? then [x.value] + Finite(rest) else Finite(rest)
    ensures Sum(Finite([x] + rest)) == (if x.Some? then x.value else 0.0) + Sum(Finite(rest))
  {
    assert ([x] + rest)[1..] == rest;
    if x.Some? {
      assert ([x.value] + Finite(rest))[1..] == Finite(rest);
    }
  }

  lemma {:induction false} SumOfSignals(finite: seq<real>, values: seq<Option<real>>)
    requires |finite| >= 2
    ensures Sum(Finite(SignalsOf(finite, values)))
            == Ratio(NetSum(Finite(values), finite) as real, (|finite| - 1) as real)
  {
    hide Ratio, SignalOf, Net, Sum, Finite;
    var n := (|finite| - 1) as real;
    if values == [] {
      EmptySum();
      RatioOrder(0.0, 0.0, n);
    } else {
      SumOfSignals(finite, values[1..]);
      assert values == [values[0]] + values[1..];
      FiniteOfOneMore(values[0], values[1..]);
      FiniteOfOneMore(SignalsOf(finite, values)[0], SignalsOf(finite, values[1..]));
      if values[0].Some? {
        var x := values[0].value;
        NetSumOfFirst(x, Finite(values[1..]), finite);
        SignalIsNet(finite, x);
        RatioOrder(Net(finite, x) as real, NetSum(Finite(values[1..]), finite) as real, n);
      }
    }
  }

  lemma EmptySum()
    ensures Finite([]) == [] && Sum([]) == 0.0 && NetSum([], []) == 0
  {
  }

  lemma NetSumOfFirst(x: real, rest: seq<real>, s: seq<real>)
    ensures NetSum([x] + rest, s) == Net(s, x) + NetSum(rest, s)
  {
    assert ([x] + rest)[1..] == rest;
  }

  /** The finite signals sum to zero. */
  lemma SignalSumsToZero(values: seq<Option<real>>)
    requires |Finite(values)| >= 2
    ensures Sum(Finite(RelativeSignal(values))) == 0.0
  {
    hide Ratio;
    var finite := Finite(values);
    SumOfSignals(finite, values);
    NetSumIsAntisymmetric(finite, finite);
    RatioOrder(0.0, 0.0, (|finite| - 1) as real);
  }
}
