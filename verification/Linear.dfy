/** Inner products over sequences, with products named so that proofs can keep them uninterpreted. */
module Linear {
  import opened Common

  function Times(a: real, b: real): real { a * b }

  lemma TimesUnits(x: real)
    ensures Times(0.0, x) == 0.0 && Times(x, 0.0) == 0.0
    ensures Times(1.0, x) == x && Times(-1.0, x) == -x
  {
  }

  lemma TimesDistributes(k: real, x: real, y: real)
    ensures Times(k, x + y) == Times(k, x) + Times(k, y)
    ensures Times(x + y, k) == Times(x, k) + Times(y, k)
    ensures Times(k, -x) == -Times(k, x) == Times(-k, x)
  {
  }

  lemma TimesMonotone(k: real, x: real, y: real)
    requires k >= 0.0 && x <= y
    ensures Times(k, x) <= Times(k, y)
    ensures Times(x, k) <= Times(y, k)
  {
    assert k * (y - x) >= 0.0;
  }

  lemma TimesAssociates(a: real, b: real, c: real)
    ensures Times(Times(a, b), c) == Times(a, Times(b, c))
  {
    assert (a * b) * c == a * (b * c);
  }

  function Dot(a: seq<real>, x: seq<real>): real
    requires |a| == |x|
  {
    if a == [] then 0.0 else Times(a[0], x[0]) + Dot(a[1..], x[1..])
  }

  function Constant(n: nat, v: real): (s: seq<real>)
    ensures |s| == n && forall i :: 0 <= i < n ==> s[i] == v
  {
    if n == 0 then [] else [v] + Constant(n - 1, v)
  }

  function Negated(s: seq<real>): (t: seq<real>)
    ensures |t| == |s| && forall i :: 0 <= i < |s| ==> t[i] == -s[i]
  {
    if s == [] then [] else [-s[0]] + Negated(s[1..])
  }

  lemma {:induction false} DotConcat(a: seq<real>, b: seq<real>, x: seq<real>)
    requires |x| == |a| + |b|
    ensures Dot(a + b, x) == Dot(a, x[..|a|]) + Dot(b, x[|a|..])
  {
    hide Times;
    if a == [] {
      assert a + b == b && x[0..] == x;
    } else {
      DotConcat(a[1..], b, x[1..]);
      assert (a + b)[1..] == a[1..] + b;
      assert x[..|a|][1..] == x[1..][..|a| - 1];
      assert x[|a|..] == x[1..][|a| - 1..];
    }
  }

  lemma {:induction false} DotConstant(v: real, x: seq<real>)
    ensures Dot(Constant(|x|, v), x) == Times(v, Sum(x))
  {
    hide Times;
    if x == [] {
      TimesUnits(v);
    } else {
      DotConstant(v, x[1..]);
      assert Constant(|x|, v)[1..] == Constant(|x| - 1, v);
      TimesDistributes(v, x[0], Sum(x[1..]));
    }
  }

  lemma {:induction false} DotNegated(a: seq<real>, x: seq<real>)
    requires |a| == |x|
    ensures Dot(Negated(a), x) == -Dot(a, x)
  {
    hide Times;
    if a != [] {
      DotNegated(a[1..], x[1..]);
      assert Negated(a)[1..] == Negated(a[1..]);
      TimesDistributes(x[0], a[0], a[0]);
      NegatedProduct(a[0], x[0]);
    }
  }

  lemma NegatedProduct(a: real, b: real)
    ensures Times(-a, b) == -Times(a, b)
  {
  }

  /** Writing a coefficient that was zero adds one term. */
  lemma {:induction false} DotPut(a: seq<real>, i: nat, v: real, x: seq<real>)
    requires |a| == |x| && i < |a| && a[i] == 0.0
    ensures Dot(a[i := v], x) == Dot(a, x) + Times(v, x[i])
  {
    hide Times;
    if i == 0 {
      assert a[0 := v][1..] == a[1..];
      TimesUnits(x[0]);
    } else {
      assert a[i := v][1..] == a[1..][i - 1 := v];
      DotPut(a[1..], i - 1, v, x[1..]);
    }
  }

  /** Coefficients in one stretch, zeros elsewhere. */
  lemma DotStretch(n: nat, start: nat, values: seq<real>, a: seq<real>, x: seq<real>)
    requires |a| == |x| == n && start + |values| <= n
    requires a == Constant(start, 0.0) + values + Constant(n - start - |values|, 0.0)
    ensures Dot(a, x) == Dot(values, x[start..start + |values|])
  {
    hide Times;
    hide Dot;
    var front, back := Constant(start, 0.0), Constant(n - start - |values|, 0.0);
    DotConcat(front + values, back, x);
    DotConcat(front, values, x[..start + |values|]);
    assert x[..start + |values|][start..] == x[start..start + |values|];
    assert x[..start + |values|][..start] == x[..start];
    DotConstant(0.0, x[..start]);
    DotConstant(0.0, x[start + |values|..]);
    TimesUnits(Sum(x[..start]));
    TimesUnits(Sum(x[start + |values|..]));
  }

  lemma {:induction false} DotZeros(n: nat, a: seq<real>)
    requires |a| == n
    ensures Dot(a, Constant(n, 0.0)) == 0.0
  {
    if n > 0 {
      assert Constant(n, 0.0)[1..] == Constant(n - 1, 0.0);
      DotZeros(n - 1, a[1..]);
      TimesUnits(a[0]);
    }
  }

  lemma {:induction false} SumConstant(n: nat, v: real)
    ensures Sum(Constant(n, v)) == Times(n as real, v)
  {
    if n > 0 {
      assert Constant(n, v)[1..] == Constant(n - 1, v);
      SumConstant(n - 1, v);
      TimesDistributes(v, (n - 1) as real, 1.0);
      TimesUnits(v);
    }
  }

  /** With coefficients in [0, 1] an inner product is at most the sum of the non-negative entries. */
  lemma {:induction false} DotAtMostSum(a: seq<real>, x: seq<real>)
    requires |a| == |x| && forall i :: 0 <= i < |a| ==> 0.0 <= a[i] <= 1.0 && x[i] >= 0.0
    ensures 0.0 <= Dot(a, x) <= Sum(x)
  {
    hide Times;
    if a != [] {
      DotAtMostSum(a[1..], x[1..]);
      TimesMonotone(x[0], 0.0, a[0]);
      TimesMonotone(x[0], a[0], 1.0);
      TimesUnits(x[0]);
    }
  }
}
