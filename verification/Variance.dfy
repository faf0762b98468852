/** The one-pass recurrence behind `stdev` and `variance` (src/extension-functions.cc), over the reals. */
module Variance {
  import opened OrderStatistics

  // ---------- The textbook definition ----------

  function Sum(xs: seq<real>): real {
    if xs == [] then 0.0 else Sum(xs[..|xs| - 1]) + xs[|xs| - 1]
  }

  function Square(x: real): real {
    x * x
  }

  /** The sum of the squared deviations of `xs` from `m`. */
  function Deviation(xs: seq<real>, m: real): real {
    if xs == [] then 0.0 else Deviation(xs[..|xs| - 1], m) + Square(xs[|xs| - 1] - m)
  }

  function Mean(xs: seq<real>): real
    requires xs != []
  {
    Sum(xs) / |xs| as real
  }

  /** The unbiased sample variance; 0 when it is not defined. */
  function SampleVariance(xs: seq<real>): real {
    if |xs| <= 1 then 0.0 else Deviation(xs, Mean(xs)) / (|xs| - 1) as real
  }

  // ---------- Why one pass is enough ----------

  lemma SquareShift(x: real, m: real, d: real)
    ensures Square(x - (m + d)) == Square(x - m) - 2.0 * (d * x) + 2.0 * (d * m) + Square(d)
  {
  }

  lemma LastOff(xs: seq<real>, m: real)
    requires xs != []
    ensures Deviation(xs, m) == Deviation(xs[..|xs| - 1], m) + Square(xs[|xs| - 1] - m)
  {
  }

  function Shifted(dev: real, sum: real, n: real, m: real, d: real): real {
    dev - 2.0 * (d * sum) + n * (2.0 * (d * m) + Square(d))
  }

  lemma Distribute(a: real, b: real, c: real)
    ensures a * (b + c) == a * b + a * c
  {
  }

  lemma ShiftOneMore(dev: real, sum: real, n: real, m: real, d: real, x: real)
    ensures Shifted(dev, sum, n, m, d) + Square(x - (m + d))
      == Shifted(dev + Square(x - m), sum + x, n + 1.0, m, d)
  {
    var c := 2.0 * (d * m) + Square(d);
    SquareShift(x, m, d);
    Distribute(d, sum, x);
    Distribute(c, n, 1.0);
  }

  /** Deviations from another centre, before the centre is known to be the mean. */
  lemma {:induction false} DeviationShift(xs: seq<real>, m: real, d: real)
    ensures Deviation(xs, m + d) == Shifted(Deviation(xs, m), Sum(xs), |xs| as real, m, d)
  {
    if xs == [] {
      assert Shifted(0.0, 0.0, 0.0, m, d) == 0.0;
    } else {
      var n := |xs| - 1;
      DeviationShift(xs[..n], m, d);
      ShiftOneMore(Deviation(xs[..n], m), Sum(xs[..n]), n as real, m, d, xs[n]);
      LastOff(xs, m);
      LastOff(xs, m + d);
    }
  }

  lemma Reorder(d: real, m: real, n: real)
    ensures d * (m * n) == n * (d * m)
  {
  }

  lemma CrossTerms(dev: real, sum: real, n: real, m: real, d: real)
    requires m * n == sum
    ensures Shifted(dev, sum, n, m, d) == dev + n * Square(d)
  {
    Distribute(n, 2.0 * (d * m), Square(d));
    Reorder(d, m, n);
    assert n * (2.0 * (d * m)) == 2.0 * (n * (d * m));
  }

  /** About the mean the cross terms cancel. */
  lemma DeviationFromMean(xs: seq<real>, m: real, d: real)
    requires m * |xs| as real == Sum(xs)
    ensures Deviation(xs, m + d) == Deviation(xs, m) + |xs| as real * Square(d)
  {
    DeviationShift(xs, m, d);
    CrossTerms(Deviation(xs, m), Sum(xs), |xs| as real, m, d);
  }

  /** The algebra of one step: `e` is how far the mean moves, `a` how far the value was from it. */
  lemma StepAlgebra(n: real, e: real, a: real, b: real)
    requires (n + 1.0) * e == a && b == a - e
    ensures n * Square(e) + Square(b) == a * b
  {
    assert b == n * e;
    Reorder(n * e, e, 1.0);
    Distribute(b, b, e);
    assert a == b + e;
    assert b * e == n * Square(e) by { Reorder(e, e, n); }
  }

  lemma MeanMoves(n: real, m: real, x: real)
    requires n >= 0.0
    ensures (m + (x - m) / (n + 1.0)) * (n + 1.0) == m * n + x
  {
    var e := (x - m) / (n + 1.0);
    assert e * (n + 1.0) == x - m;
    assert (m + e) * (n + 1.0) == m * (n + 1.0) + e * (n + 1.0);
    assert m * (n + 1.0) == m * n + m;
  }

  lemma OneMoreValue(xs: seq<real>, x: real, m: real)
    ensures Sum(xs + [x]) == Sum(xs) + x
    ensures Deviation(xs + [x], m) == Deviation(xs, m) + Square(x - m)
  {
    assert (xs + [x])[..|xs|] == xs;
  }

  lemma NewMean(xs: seq<real>, m: real, x: real, a: real, m': real)
    requires m * |xs| as real == Sum(xs) && a == x - m && m' == m + a / (|xs| + 1) as real
    ensures m' * |xs + [x]| as real == Sum(xs + [x])
  {
    MeanMoves(|xs| as real, m, x);
    OneMoreValue(xs, x, m);
    assert |xs + [x]| as real == |xs| as real + 1.0;
  }

  function Growth(n: real, e: real, b: real): real {
    n * Square(e) + Square(b)
  }

  lemma Grown(xs: seq<real>, m: real, x: real, e: real, m': real, b: real)
    requires m * |xs| as real == Sum(xs) && m' == m + e && b == x - m'
    ensures Deviation(xs + [x], m') == Deviation(xs, m) + Growth(|xs| as real, e, b)
  {
    OneMoreValue(xs, x, m');
    DeviationFromMean(xs, m, e);
  }

  lemma GrowthIs(n: real, e: real, a: real, b: real)
    requires (n + 1.0) * e == a && b == a - e
    ensures Growth(n, e, b) == a * b
  {
    StepAlgebra(n, e, a, b);
  }

  /** `m` is the mean of `xs` and `s` the sum of its squared deviations from it. */
  ghost predicate Tracks(xs: seq<real>, m: real, s: real) {
    m * |xs| as real == Sum(xs) && s == Deviation(xs, m)
  }

  lemma QuotientTimes(a: real, k: real)
    requires k > 0.0
    ensures k * (a / k) == a
  {
  }

  lemma GrowthOfStep(n: nat, m: real, x: real, a: real, m': real, b: real)
    requires a == x - m && m' == m + a / (n + 1) as real && b == x - m'
    ensures Growth(n as real, m' - m, b) == a * b
  {
    QuotientTimes(a, n as real + 1.0);
    GrowthIs(n as real, m' - m, a, b);
  }

  lemma StepDeviation(xs: seq<real>, m: real, x: real, a: real, m': real, b: real)
    requires m * |xs| as real == Sum(xs)
    requires a == x - m && m' == m + a / (|xs| + 1) as real && b == x - m'
    ensures Deviation(xs + [x], m') == Deviation(xs, m) + a * b
  {
    GrowthOfStep(|xs|, m, x, a, m', b);
    Grown(xs, m, x, m' - m, m', b);
  }

  /** The recurrence. */
  lemma {:induction false} StepTracks(xs: seq<real>, m: real, s: real, x: real, a: real, m': real, b: real)
    requires Tracks(xs, m, s) && a == x - m && m' == m + a / (|xs| + 1) as real && b == x - m'
    ensures Tracks(xs + [x], m', s + a * b)
  {
    assert m' * |xs + [x]| as real == Sum(xs + [x]) by {
      NewMean(xs, m, x, a, m');
    }
    assert Deviation(xs + [x], m') == s + a * b by {
      StepDeviation(xs, m, x, a, m', b);
    }
  }

  // ---------- The aggregate ----------

  lemma MeanIs(xs: seq<real>, m: real)
    requires xs != [] && m * |xs| as real == Sum(xs)
    ensures m == Mean(xs)
  {
    var n := |xs| as real;
    assert (m * n) / n == m;
  }

  class StdevCtx {
    var rM: real
    var rS: real
    var cnt: nat
    ghost var seen: seq<real>

    ghost predicate Valid()
      reads this
    {
      cnt == |seen| && Tracks(seen, rM, rS)
    }

    constructor ()
      ensures Valid() && seen == []
    {
      rM, rS, cnt, seen := 0.0, 0.0, 0, [];
    }

    /** `varianceStep`. */
    method Step(v: SqlValue)
      requires Valid()
      modifies this
      ensures Valid()
      ensures seen == old(seen) + if v.Null? then [] else [KeyOf(true, v)]
    {
      if !v.Null? {
        var x := KeyOf(true, v);
        cnt := cnt + 1;
        var delta := x - rM;
        rM := rM + delta / cnt as real;
        ghost var b := x - rM;
        rS := rS + delta * (x - rM);
        assert Tracks(old(seen) + [x], rM, old(rS) + delta * b) by {
          StepTracks(old(seen), old(rM), old(rS), x, delta, rM, b);
        }
        seen := seen + [x];
      }
    }

    /** `varianceFinalize`. */
    method Finalize() returns (r: real)
      requires Valid()
      ensures r == SampleVariance(seen)
      ensures cnt > 0 ==> rM == Mean(seen) && rS == Deviation(seen, Mean(seen))
    {
      if cnt > 0 {
        MeanIs(seen, rM);
      }
      r := if cnt > 1 then rS / (cnt - 1) as real else 0.0;
    }
  }

  function Numbers(vs: seq<SqlValue>): seq<real> {
    if vs == [] then []
    else
      var n := |vs| - 1;
      Numbers(vs[..n]) + if vs[n].Null? then [] else [KeyOf(true, vs[n])]
  }

  lemma NumbersNext(vs: seq<SqlValue>, i: nat)
    requires i < |vs|
    ensures Numbers(vs[..i + 1]) == Numbers(vs[..i]) + if vs[i].Null? then [] else [KeyOf(true, vs[i])]
  {
    assert vs[..i + 1][..i] == vs[..i];
  }

  /** A whole aggregation: the sample variance of the values that are not NULL. */
  method VarianceOf(vs: seq<SqlValue>) returns (r: real)
    ensures r == SampleVariance(Numbers(vs))
  {
    var c := new StdevCtx();
    for i := 0 to |vs|
      invariant c.Valid() && fresh(c) && c.seen == Numbers(vs[..i])
    {
      NumbersNext(vs, i);
      c.Step(vs[i]);
    }
    assert vs[..|vs|] == vs;
    r := c.Finalize();
  }
}
