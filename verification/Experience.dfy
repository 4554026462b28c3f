/** include/jevt/experience.hpp: running moments, the prequential shadow estimator and the outcome memory. */
module Experience {
  import opened Wrappers
  import opened Lists
  import opened Welford

  const MAX_SIZE: nat := 0xFFFF_FFFF_FFFF_FFFF

  // -------------------------------------------------------------------- moments

  class Moments {
    var samples: nat
    var mean: real
    var m2: real
    ghost var observed: seq<real>

    ghost predicate Valid()
      reads this
    {
      samples == |observed| && Exact(observed, mean, m2)
    }

    constructor ()
      ensures Valid() && observed == []
    {
      samples, mean, m2, observed := 0, 0.0, 0.0, [];
    }

    method Observe(value: real) returns (ok: bool)
      requires Valid()
      modifies this
      ensures Valid() && (ok <==> |old(observed)| != MAX_SIZE)
      ensures observed == if ok then old(observed) + [value] else old(observed)
    {
      if samples == MAX_SIZE { return false; }
      UpdateExact(observed, mean, m2, value);
      var delta := value - mean;
      var nextMean := mean + delta / (samples + 1) as real;
      m2 := m2 + delta * (value - nextMean);
      mean := nextMean;
      samples := samples + 1;
      observed := observed + [value];
      ok := true;
    }
  }

  // ------------------------------------------------------------- shadow estimator

  const WINDOW := 32

  datatype Sample = Sample(value: real, prior: real)

  datatype ErrorPair = ErrorPair(prior: real, candidate: real)

  /** An absent bound is an infinite one. */
  datatype Range = Range(lower: Option<real>, upper: Option<real>)

  predicate ValidRange(r: Range) {
    r.lower.None? || r.upper.None? || r.lower.value <= r.upper.value
  }

  function Clamp(x: real, r: Range): real {
    if r.lower.Some? && x < r.lower.value then r.lower.value
    else if r.upper.Some? && x > r.upper.value then r.upper.value
    else x
  }

  function Values(h: seq<Sample>): (r: seq<real>)
    ensures |r| == |h| && forall i :: 0 <= i < |r| ==> r[i] == h[i].value
  {
    seq(|h|, i requires 0 <= i < |h| => h[i].value)
  }

  /** What would have been forecast for a sample from the samples before it, and how wrong that and the prior were. */
  function Checked(h: seq<Sample>, next: Sample, r: Range): ErrorPair {
    ErrorPair(Abs(next.value - next.prior), Abs(next.value - Clamp(Mean(Values(h)), r)))
  }

  /** All checks of a history: every sample from the fifth on is checked before it is learned. */
  function Checks(h: seq<Sample>, r: Range): (c: seq<ErrorPair>)
    ensures |c| == if |h| < 4 then 0 else |h| - 4
    decreases |h|
  {
    if |h| <= 4 then []
    else Checks(h[..|h| - 1], r) + [Checked(h[..|h| - 1], h[|h| - 1], r)]
  }

  /** A deque that drops its front when it grows past n holds the newest n. */
  lemma NewestNext<T>(s: seq<T>, x: T, n: nat)
    requires n > 0
    ensures var pushed := Newest(s, n) + [x];
            Newest(s + [x], n) == if |pushed| > n then pushed[1..] else pushed
  {
  }

  class ShadowMean {
    var observed: Moments
    var checks: seq<ErrorPair>
    const range: Range
    ghost var history: seq<Sample>

    ghost predicate Valid()
      reads this, observed
    {
      && observed.Valid() && observed.observed == Values(history)
      && checks == Newest(Checks(history, range), WINDOW)
      && ValidRange(range)
    }

    constructor (range: Range)
      requires range.lower != None && range.upper != None ==> range.lower.value <= range.upper.value
      ensures Valid() && history == [] && fresh(observed)
    {
      this.range := range;
      observed := new Moments();
      checks, history := [], [];
    }

    /** Scores the forecast made from earlier samples first, then learns. */
    method Observe(value: real, prior: real, admissible: bool) returns (ok: bool)
      requires Valid()
      modifies this, observed
      ensures Valid() && observed == old(observed)
      ensures ok <==> admissible && |old(history)| != MAX_SIZE
      ensures history == if ok then old(history) + [Sample(value, prior)] else old(history)
    {
      if !admissible { return false; }
      var candidate := Clamp(observed.mean, range);
      var enough := observed.samples >= 4;
      ok := observed.Observe(value);
      if !ok { return; }
      var pair := ErrorPair(Abs(value - prior), Abs(value - candidate));
      ghost var all := history + [Sample(value, prior)];
      assert all[..|history|] == history;
      assert Values(all) == Values(history) + [value];
      if enough { Push(pair); }
      history := all;
    }

    /** The check window is a deque that drops its front. */
    method Push(pair: ErrorPair)
      requires checks == Newest(Checks(history, range), WINDOW)
      modifies this`checks
      ensures checks == Newest(Checks(history, range) + [pair], WINDOW)
    {
      NewestNext(Checks(history, range), pair, WINDOW);
      checks := checks + [pair];
      if |checks| > WINDOW { checks := checks[1..]; }
    }

    method Candidate() returns (c: real)
      requires Valid()
      ensures c == Clamp(Mean(Values(history)), range)
    {
      c := Clamp(observed.mean, range);
    }

    method Promoted() returns (promoted: bool)
      requires Valid()
      ensures promoted == Promotes(Newest(Checks(history, range), WINDOW))
    {
      var wins := 0;
      var prior, candidate := 0.0, 0.0;
      for i := 0 to |checks|
        invariant wins == Wins(checks[..i])
        invariant prior == Sum(Priors(checks[..i])) && candidate == Sum(Candidates(checks[..i]))
      {
        PairsNext(checks, i);
        if checks[i].candidate < checks[i].prior { wins := wins + 1; }
        prior := prior + checks[i].prior;
        candidate := candidate + checks[i].candidate;
      }
      assert checks[..|checks|] == checks;
      if |checks| == 0 { return false; }
      promoted := |checks| == WINDOW && wins >= 24
                  && candidate / |checks| as real + 0.000001 < prior / |checks| as real * 0.9;
    }

    method ValueOr(prior: real) returns (v: real)
      requires Valid()
      ensures v == if Promotes(Newest(Checks(history, range), WINDOW)) then Clamp(Mean(Values(history)), range)
          else prior
    {
      var promoted := Promoted();
      if promoted { v := Candidate(); } else { v := prior; }
    }
  }

  function Priors(pairs: seq<ErrorPair>): (r: seq<real>)
    ensures |r| == |pairs| && forall i :: 0 <= i < |r| ==> r[i] == pairs[i].prior
  {
    seq(|pairs|, i requires 0 <= i < |pairs| => pairs[i].prior)
  }

  function Candidates(pairs: seq<ErrorPair>): (r: seq<real>)
    ensures |r| == |pairs| && forall i :: 0 <= i < |r| ==> r[i] == pairs[i].candidate
  {
    seq(|pairs|, i requires 0 <= i < |pairs| => pairs[i].candidate)
  }

  function Wins(pairs: seq<ErrorPair>): (n: nat)
    ensures n <= |pairs|
    decreases |pairs|
  {
    if pairs == [] then 0
    else
      var last := pairs[|pairs| - 1];
      Wins(pairs[..|pairs| - 1]) + if last.candidate < last.prior then 1 else 0
  }

  lemma PairsNext(pairs: seq<ErrorPair>, i: nat)
    requires i < |pairs|
    ensures Wins(pairs[..i + 1]) == Wins(pairs[..i]) + if pairs[i].candidate < pairs[i].prior then 1 else 0
    ensures Sum(Priors(pairs[..i + 1])) == Sum(Priors(pairs[..i])) + pairs[i].prior
    ensures Sum(Candidates(pairs[..i + 1])) == Sum(Candidates(pairs[..i])) + pairs[i].candidate
  {
    assert pairs[..i + 1][..i] == pairs[..i];
    assert Priors(pairs[..i + 1])[..i] == Priors(pairs[..i]);
    assert Candidates(pairs[..i + 1])[..i] == Candidates(pairs[..i]);
  }

  predicate Promotes(pairs: seq<ErrorPair>) {
    |pairs| == WINDOW && Wins(pairs) >= 24 && Mean(Candidates(pairs)) + 0.000001 < Mean(Priors(pairs)) * 0.9
  }

  /** Every check is made from strictly earlier samples: it is the same whatever was observed afterwards. */
  lemma {:induction false} CheckIsPrequential(h: seq<Sample>, i: nat, r: Range)
    requires i + 4 < |h|
    ensures Checks(h, r)[i] == ErrorPair(Abs(h[i + 4].value - h[i + 4].prior),
                                         Abs(h[i + 4].value - Clamp(Mean(Values(h[..i + 4])), r)))
    decreases |h|
  {
    var n := |h| - 1;
    if i + 4 < n {
      CheckIsPrequential(h[..n], i, r);
      assert h[..n][..i + 4] == h[..i + 4];
    }
  }

  /** A bounded value is the bound it exceeds, or the value. */
  lemma ClampIs(x: real, r: Range)
    requires ValidRange(r)
    ensures r.lower != None && x < r.lower.value ==> Clamp(x, r) == r.lower.value
    ensures r.upper != None && x > r.upper.value ==> Clamp(x, r) == r.upper.value
    ensures (r.lower == None || r.lower.value <= x) && (r.upper == None || x <= r.upper.value) ==> Clamp(x, r) == x
  {
  }

  /** The window holds exactly the last 32 checks: entry i is the check of its own sample against the mean of all
      samples before that one. */
  lemma WindowIsNewest(h: seq<Sample>, i: nat, r: Range)
    requires i < |Newest(Checks(h, r), WINDOW)|
    ensures var k := |h| - |Newest(Checks(h, r), WINDOW)| + i;
            && 4 <= k < |h|
            && Newest(Checks(h, r), WINDOW)[i]
               == ErrorPair(Abs(h[k].value - h[k].prior), Abs(h[k].value - Clamp(Mean(Values(h[..k])), r)))
    ensures |Newest(Checks(h, r), WINDOW)| == if |h| < 4 then 0 else if |h| < 36 then |h| - 4 else 32
  {
    CheckIsPrequential(h, |h| - |Newest(Checks(h, r), WINDOW)| + i - 4, r);
  }

  /** When an estimator is promoted: with 32 checks in the window, 24 of them won, and a mean error more than a tenth
      (and a millionth) below that of the prior. */
  lemma PromotedIff(h: seq<Sample>, r: Range)
    ensures var w := Newest(Checks(h, r), WINDOW);
            Promotes(w) <==>
              && |h| >= 36 && |Filter(w, (p: ErrorPair) => p.candidate < p.prior)| >= 24
              && Mean(Candidates(w)) + 0.000001 < 0.9 * Mean(Priors(w))
  {
    var w := Newest(Checks(h, r), WINDOW);
    WinsAre(w);
    if w != [] { WindowIsNewest(h, 0, r); }
  }

  lemma {:induction false} WinsAre(pairs: seq<ErrorPair>)
    ensures Wins(pairs) == |Filter(pairs, (p: ErrorPair) => p.candidate < p.prior)|
    decreases |pairs|
  {
    if pairs != [] { WinsAre(pairs[..|pairs| - 1]); }
  }

  /** A promoted estimator has 36 samples behind it and was strictly better than a prior that was not perfect;
      what it then answers respects its bounds. */
  lemma {:induction false} PromotionIsEarned(h: seq<Sample>, r: Range)
    requires ValidRange(r) && Promotes(Newest(Checks(h, r), WINDOW))
    ensures |h| >= 36
    ensures var w := Newest(Checks(h, r), WINDOW); 0.0 <= Mean(Candidates(w)) < Mean(Priors(w))
    ensures var c := Clamp(Mean(Values(h)), r);
            (r.lower.Some? ==> r.lower.value <= c) && (r.upper.Some? ==> c <= r.upper.value)
  {
    var w := Newest(Checks(h, r), WINDOW);
    forall i | 0 <= i < |w| ensures w[i].candidate >= 0.0 { WindowIsNewest(h, i, r); }
    NonNegativeMean(Candidates(w));
  }

  lemma {:induction false} NonNegativeSum(xs: seq<real>)
    requires forall i :: 0 <= i < |xs| ==> xs[i] >= 0.0
    ensures Sum(xs) >= 0.0
    decreases |xs|
  {
    if xs != [] { NonNegativeSum(xs[..|xs| - 1]); }
  }

  lemma NonNegativeMean(xs: seq<real>)
    requires forall i :: 0 <= i < |xs| ==> xs[i] >= 0.0
    ensures Mean(xs) >= 0.0
  {
    NonNegativeSum(xs);
  }
}
