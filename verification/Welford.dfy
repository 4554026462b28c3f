/** The running mean and sum of squared deviations that the repository computes twice, in
    include/jevt/experience.hpp and examples/mario_dashboard/experience_memory.hpp, against their definitions. */
module Welford {

  function Sum(xs: seq<real>): real
    decreases |xs|
  {
    if xs == [] then 0.0 else Sum(xs[..|xs| - 1]) + xs[|xs| - 1]
  }

  function Square(x: real): real { x * x }

  function Abs(x: real): real { if x < 0.0 then -x else x }

  function Total(xs: seq<real>, f: real -> real): real
    decreases |xs|
  {
    if xs == [] then 0.0 else Total(xs[..|xs| - 1], f) + f(xs[|xs| - 1])
  }

  function SquaredDistance(centre: real): real -> real { (x: real) => Square(x - centre) }

  function Distance(centre: real): real -> real { (x: real) => x - centre }

  /** Sum of squared distances from a centre. */
  function Spread(xs: seq<real>, centre: real): real {
    Total(xs, SquaredDistance(centre))
  }

  /** The definition of the mean. */
  function Mean(xs: seq<real>): real {
    if xs == [] then 0.0 else Sum(xs) / |xs| as real
  }

  /** One step of the running update, as written in the source. */
  function NextMean(n: nat, mean: real, x: real): real {
    mean + (x - mean) / (n + 1) as real
  }

  function NextM2(n: nat, mean: real, m2: real, x: real): real {
    m2 + (x - mean) * (x - NextMean(n, mean, x))
  }

  ghost predicate Exact(xs: seq<real>, mean: real, m2: real) {
    mean == Mean(xs) && m2 == Spread(xs, mean)
  }

  lemma MeanTimes(xs: seq<real>)
    ensures Mean(xs) * |xs| as real == Sum(xs)
  {
  }

  lemma {:induction false} ExcessIs(xs: seq<real>, centre: real)
    ensures Total(xs, Distance(centre)) == Sum(xs) - centre * |xs| as real
    decreases |xs|
  {
    if xs != [] {
      var n := |xs| - 1;
      ExcessIs(xs[..n], centre);
      assert centre * (n + 1) as real == centre * n as real + centre;
    }
  }

  /** Sums of functions that differ by a constant and a multiple of a third. */
  lemma {:induction false} TotalShift(xs: seq<real>, f: real -> real, g: real -> real, h: real -> real, c: real,
    k: real)
    requires forall x :: f(x) == g(x) + c + k * h(x)
    ensures Total(xs, f) == Total(xs, g) + c * |xs| as real + k * Total(xs, h)
    decreases |xs|
  {
    if xs != [] {
      var n, x := |xs| - 1, xs[|xs| - 1];
      TotalShift(xs[..n], f, g, h, c, k);
      Distribute(c, n as real, 1.0);
      Distribute(k, Total(xs[..n], h), h(x));
    }
  }

  lemma Distribute(k: real, x: real, y: real)
    ensures k * (x + y) == k * x + k * y
  {
  }

  lemma OneShift(x: real, a: real, b: real, square: real, twice: real)
    requires square == Square(a - b) && twice == 2.0 * (a - b)
    ensures Square(x - b) - Square(x - a) == square + twice * (x - a)
  {
  }

  /** The running update is exact: after every sample the stored mean and m2 are those of all samples. */
  lemma UpdateExact(xs: seq<real>, mean: real, m2: real, x: real)
    requires Exact(xs, mean, m2)
    ensures Exact(xs + [x], NextMean(|xs|, mean, x), NextM2(|xs|, mean, m2, x))
  {
    MeanStep(xs, mean, x);
    SpreadStep(xs, mean, x);
  }

  lemma Division(a: real, k: real) returns (q: real)
    requires k > 0.0
    ensures q == a / k && q * k == a
  {
    q := a / k;
  }

  lemma MeanStep(xs: seq<real>, mean: real, x: real)
    requires mean == Mean(xs)
    ensures NextMean(|xs|, mean, x) == Mean(xs + [x])
  {
  }

  lemma SpreadStep(xs: seq<real>, mean: real, x: real)
    requires mean == Mean(xs)
    ensures NextM2(|xs|, mean, Spread(xs, mean), x) == Spread(xs + [x], NextMean(|xs|, mean, x))
  {
    assert (xs + [x])[..|xs|] == xs;
    var step := Division(x - mean, (|xs| + 1) as real);
    var next := NextMean(|xs|, mean, x);
    CentredShift(xs, next);
    NewSpread(|xs| as real, x - mean, step, mean - next, x - next);
  }

  lemma CentredShift(xs: seq<real>, b: real)
    ensures Spread(xs, b) == Spread(xs, Mean(xs)) + Square(Mean(xs) - b) * |xs| as real
  {
    MeanTimes(xs);
    ExcessIs(xs, Mean(xs));
    SpreadShift(xs, Mean(xs), b, Square(Mean(xs) - b), 2.0 * (Mean(xs) - b));
  }

  /** About a centre with no excess, moving the centre adds its squared move for every sample. */
  lemma SpreadShift(xs: seq<real>, a: real, b: real, square: real, twice: real)
    requires square == Square(a - b) && twice == 2.0 * (a - b) && Total(xs, Distance(a)) == 0.0
    ensures Spread(xs, b) == Spread(xs, a) + square * |xs| as real
  {
    SquaresDiffer(a, b, square, twice);
    TotalShift(xs, SquaredDistance(b), SquaredDistance(a), Distance(a), square, twice);
    TimesZero(twice, Total(xs, Distance(a)));
  }

  lemma SquaresDiffer(a: real, b: real, square: real, twice: real)
    requires square == Square(a - b) && twice == 2.0 * (a - b)
    ensures forall x :: SquaredDistance(b)(x) == SquaredDistance(a)(x) + square + twice * Distance(a)(x)
  {
    forall x ensures SquaredDistance(b)(x) == SquaredDistance(a)(x) + square + twice * Distance(a)(x) {
      OneShift(x, a, b, square, twice);
    }
  }

  lemma TimesZero(k: real, x: real)
    requires x == 0.0
    ensures k * x == 0.0
  {
  }

  lemma Quotient(sum: real, k: real, mean: real)
    requires k > 0.0 && mean * k == sum
    ensures sum / k == mean
  {
  }

  /** With delta the old distance, step the move of the mean and rest the new distance. */
  lemma NewSpread(n: real, delta: real, step: real, back: real, rest: real)
    requires step * (n + 1.0) == delta && back == -step && rest == delta - step
    ensures Square(back) * n + Square(rest) == delta * rest
  {
  }

  /** A mean lies between bounds of its samples. */
  lemma {:induction false} SumBounds(xs: seq<real>, lo: real, hi: real)
    requires forall i :: 0 <= i < |xs| ==> lo <= xs[i] <= hi
    ensures lo * |xs| as real <= Sum(xs) <= hi * |xs| as real
    decreases |xs|
  {
    if xs != [] { SumBounds(xs[..|xs| - 1], lo, hi); }
  }

  lemma MeanBetween(xs: seq<real>, lo: real, hi: real)
    requires xs != [] && forall i :: 0 <= i < |xs| ==> lo <= xs[i] <= hi
    ensures lo <= Mean(xs) <= hi
  {
    SumBounds(xs, lo, hi);
    Ordered(lo, Sum(xs), hi, |xs| as real);
  }

  lemma Ordered(lo: real, sum: real, hi: real, k: real)
    requires k > 0.0 && lo * k <= sum <= hi * k
    ensures lo <= sum / k <= hi
  {
  }
}
