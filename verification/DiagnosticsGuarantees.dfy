/** What the recorded numbers mean: percentiles bracket the true order statistic, counters are conserved, the
    recent list is the newest sampled calls. */
module DiagnosticsGuarantees {
  import opened Wrappers
  import opened Lists
  import opened Diagnostics

  // -------------------------------------------------------------- counting lemmas

  lemma {:induction false} CountMonotone(h: seq<Call>, p: Call -> bool, q: Call -> bool)
    requires forall c :: c in h && p(c) ==> q(c)
    ensures Count(h, p) <= Count(h, q)
    decreases |h|
  {
    if h != [] {
      var front := h[..|h| - 1];
      assert h == front + [h[|h| - 1]];
      CountMonotone(front, p, q);
    }
  }

  /** Two conditions that exclude each other count apart. */
  lemma {:induction false} CountDisjoint(h: seq<Call>, p: Call -> bool, q: Call -> bool, both: Call -> bool)
    requires forall c :: c in h ==> !(p(c) && q(c)) && (both(c) <==> p(c) || q(c))
    ensures Count(h, both) == Count(h, p) + Count(h, q)
    decreases |h|
  {
    if h != [] {
      var front := h[..|h| - 1];
      assert h == front + [h[|h| - 1]];
      CountDisjoint(front, p, q, both);
    }
  }

  // ---------------------------------------------------------- cumulative histograms

  function Sum(counts: seq<nat>): nat
    decreases |counts|
  {
    if counts == [] then 0 else Sum(counts[..|counts| - 1]) + counts[|counts| - 1]
  }

  /** The cumulative loop of the Prometheus text. */
  method Cumulative(buckets: seq<nat>) returns (cumulative: seq<nat>)
    ensures |cumulative| == |buckets|
    ensures forall i :: 0 <= i < |buckets| ==> cumulative[i] == Sum(buckets[..i + 1])
  {
    cumulative := [];
    var running := 0;
    for i := 0 to |buckets|
      invariant |cumulative| == i && running == Sum(buckets[..i])
      invariant forall j :: 0 <= j < i ==> cumulative[j] == Sum(buckets[..j + 1])
    {
      assert buckets[..i + 1][..i] == buckets[..i];
      running := running + buckets[i];
      cumulative := cumulative + [running];
    }
  }

  function UpToBucket(bounds: seq<real>, b: int): Call -> bool { (c: Call) => Bucket(bounds, Latency(c)) <= b }

  function AtMost(x: real): Call -> bool { (c: Call) => Latency(c) <= x }

  function Less(x: real): Call -> bool { (c: Call) => Latency(c) < x }

  lemma {:induction false} PrefixCount(bounds: seq<real>, h: seq<Call>, i: nat)
    requires i <= |bounds| + 1
    ensures Sum(Histogram(bounds, h)[..i]) == Count(h, UpToBucket(bounds, i - 1))
    decreases i
  {
    if i == 0 {
      FilterNone(h, UpToBucket(bounds, -1));
    } else {
      PrefixCount(bounds, h, i - 1);
      assert Histogram(bounds, h)[..i][..i - 1] == Histogram(bounds, h)[..i - 1];
      CountDisjoint(h, UpToBucket(bounds, i - 2), InBucket(bounds, i - 1), UpToBucket(bounds, i - 1));
    }
  }

  lemma BucketOrder(bounds: seq<real>, x: real, b: nat)
    requires StrictBounds(bounds) && b < |bounds|
    ensures Bucket(bounds, x) <= b <==> x <= bounds[b]
  {
  }

  /** Each cumulative count is the number of calls no slower than its bound, and the last one counts every call. */
  lemma CumulativeMeaning(bounds: seq<real>, h: seq<Call>, i: nat)
    requires StrictBounds(bounds) && i <= |bounds|
    ensures Sum(Histogram(bounds, h)[..i + 1]) == if i < |bounds| then Count(h, AtMost(bounds[i])) else |h|
  {
    PrefixCount(bounds, h, i + 1);
    if i < |bounds| {
      forall c ensures UpToBucket(bounds, i)(c) <==> AtMost(bounds[i])(c) {
        BucketOrder(bounds, Latency(c), i);
      }
      CountMonotone(h, UpToBucket(bounds, i), AtMost(bounds[i]));
      CountMonotone(h, AtMost(bounds[i]), UpToBucket(bounds, i));
    } else {
      FilterAll(h, UpToBucket(bounds, i));
    }
  }

  // ------------------------------------------------------------------ conservation

  lemma {:induction false} OutcomesPartition(h: seq<Call>)
    ensures Count(h, HasOutcome(Success)) + Count(h, HasOutcome(Error)) + Count(h, HasOutcome(Abstain)) == |h|
    decreases |h|
  {
    if h != [] { OutcomesPartition(h[..|h| - 1]); }
  }

  /** Calls attributed to the given decisions. */
  function Attributed(h: seq<Call>, names: seq<string>): nat
    decreases |names|
  {
    if names == [] then 0
    else Attributed(h, names[..|names| - 1]) + Count(h, OfDecision(names[|names| - 1]))
  }

  function Inside(names: seq<string>): Call -> bool { (c: Call) => c.decision in names }

  lemma {:induction false} AttributedCount(h: seq<Call>, names: seq<string>)
    requires forall i, j :: 0 <= i < j < |names| ==> names[i] != names[j]
    ensures Attributed(h, names) == Count(h, Inside(names))
    decreases |names|
  {
    if names == [] {
      FilterNone(h, Inside(names));
    } else {
      var n := |names| - 1;
      AttributedCount(h, names[..n]);
      assert names == names[..n] + [names[n]];
      CountDisjoint(h, Inside(names[..n]), OfDecision(names[n]), Inside(names));
    }
  }

  function Always(): Call -> bool { (c: Call) => true }

  /** Nothing is lost: every call is in one outcome, in one bucket, and either in its decision's counters or
      among the dropped. */
  lemma Conservation(o: Options, h: seq<Call>)
    ensures var total := Summary(o.bounds, h);
            && total.calls == total.successes + total.errors + total.abstains
            && total.calls == Sum(total.buckets)
            && total.calls == Attributed(h, Tracked(o.maxDecisions, h)) + Dropped(o, h)
    ensures |Tracked(o.maxDecisions, h)| <= o.maxDecisions
    ensures forall name :: name in PerDecision(o, h) ==>
              PerDecision(o, h)[name].calls == Count(h, OfDecision(name))
  {
    OutcomesPartition(h);
    PrefixCount(o.bounds, h, |o.bounds| + 1);
    FilterAll(h, UpToBucket(o.bounds, |o.bounds|));
    assert Histogram(o.bounds, h)[..|o.bounds| + 1] == Histogram(o.bounds, h);
    TrackedDistinct(o.maxDecisions, h);
    var names := Tracked(o.maxDecisions, h);
    AttributedCount(h, names);
    CountDisjoint(h, Inside(names), Outside(names), Always());
    FilterAll(h, Always());
  }

  // ------------------------------------------------------------------- percentiles

  function Ceiling(x: real): int {
    if x == x.Floor as real then x.Floor else x.Floor + 1
  }

  function Rank(quantile: real, calls: nat): int {
    Ceiling(quantile * calls as real)
  }

  /** Calls in the buckets up to and including the given one. */
  function Running(buckets: seq<nat>, i: nat): nat
    requires i < |buckets|
  {
    Sum(buckets[..i + 1])
  }

  /** The first bucket at which the running total reaches the rank. */
  function Reaching(buckets: seq<nat>, rank: int, from: nat := 0): (i: nat)
    requires from <= |buckets|
    ensures from <= i <= |buckets|
    ensures i < |buckets| ==> Running(buckets, i) >= rank
    ensures forall j :: from <= j < i ==> Running(buckets, j) < rank
    decreases |buckets| - from
  {
    if from == |buckets| || Running(buckets, from) >= rank then from else Reaching(buckets, rank, from + 1)
  }

  /** The upper edge of a bucket; the overflow bucket ends at the largest latency seen. */
  function Edge(c: Counters, bounds: seq<real>, b: nat): real {
    if b < |bounds| then bounds[b] else if b < |c.buckets| then c.latencyMax else 0.0
  }

  function Percentile(c: Counters, bounds: seq<real>, quantile: real): real {
    if c.calls == 0 then 0.0 else Edge(c, bounds, Reaching(c.buckets, Rank(quantile, c.calls)))
  }

  method ReportPercentile(c: Counters, bounds: seq<real>, quantile: real) returns (p: real)
    requires |c.buckets| == |bounds| + 1
    ensures p == Percentile(c, bounds, quantile)
  {
    if c.calls == 0 { return 0.0; }
    var i := FirstReaching(c.buckets, Rank(quantile, c.calls));
    p := if i < |bounds| then bounds[i] else if i < |c.buckets| then c.latencyMax else 0.0;
  }

  method FirstReaching(buckets: seq<nat>, rank: int) returns (i: nat)
    ensures i == Reaching(buckets, rank)
  {
    var cumulative := 0;
    i := 0;
    while i < |buckets|
      invariant i <= |buckets| && cumulative == Sum(buckets[..i])
      invariant Reaching(buckets, rank) == Reaching(buckets, rank, i)
    {
      assert buckets[..i + 1][..i] == buckets[..i];
      cumulative := cumulative + buckets[i];
      assert cumulative == Running(buckets, i);
      if cumulative >= rank { return; }
      i := i + 1;
    }
  }

  /** v is the rank-th smallest recorded latency, counting repetitions. */
  ghost predicate OrderStatistic(h: seq<Call>, rank: int, v: real) {
    Count(h, Less(v)) < rank <= Count(h, AtMost(v))
  }

  lemma RankInRange(quantile: real, calls: nat)
    requires 0.0 < quantile <= 1.0 && calls > 0
    ensures 1 <= Rank(quantile, calls) <= calls
  {
    var x := quantile * calls as real;
    assert 0.0 < x <= calls as real;
  }

  /** The reported percentile is the upper edge of exactly the bucket the true order statistic lies in. */
  lemma PercentileBucket(bounds: seq<real>, h: seq<Call>, quantile: real, v: real)
    requires StrictBounds(bounds) && h != [] && 0.0 < quantile <= 1.0
    requires OrderStatistic(h, Rank(quantile, |h|), v)
    ensures Percentile(Summary(bounds, h), bounds, quantile) == Edge(Summary(bounds, h), bounds, Bucket(bounds, v))
  {
    var rank, counts, b := Rank(quantile, |h|), Histogram(bounds, h), Bucket(bounds, v);
    PrefixCount(bounds, h, b + 1);
    CountMonotone(h, AtMost(v), UpToBucket(bounds, b)) by {
      forall c | AtMost(v)(c) ensures UpToBucket(bounds, b)(c) { BucketMonotone(bounds, Latency(c), v); }
    }
    if b > 0 {
      PrefixCount(bounds, h, b);
      CountMonotone(h, UpToBucket(bounds, b - 1), Less(v)) by {
        forall c | UpToBucket(bounds, b - 1)(c) ensures Less(v)(c) { BucketOrder(bounds, Latency(c), b - 1); }
      }
    }
    ReachingIs(counts, rank, b);
  }

  lemma BucketMonotone(bounds: seq<real>, x: real, y: real)
    requires StrictBounds(bounds) && x <= y
    ensures Bucket(bounds, x) <= Bucket(bounds, y)
  {
  }

  lemma ReachingIs(counts: seq<nat>, rank: int, b: nat)
    requires b < |counts| && Sum(counts[..b + 1]) >= rank && (b > 0 ==> Sum(counts[..b]) < rank)
    ensures Reaching(counts, rank) == b
  {
    var i := Reaching(counts, rank);
    assert Running(counts, b) >= rank;
    if i < b { SumGrows(counts, i + 1, b); }
  }

  lemma {:induction false} SumGrows(counts: seq<nat>, i: nat, j: nat)
    requires i <= j <= |counts|
    ensures Sum(counts[..i]) <= Sum(counts[..j])
    decreases j
  {
    if i < j {
      SumGrows(counts, i, j - 1);
      assert counts[..j][..j - 1] == counts[..j - 1];
    }
  }

  /** So it never understates the order statistic, and outside the first bucket it overstates it by less than
      the width of one bucket. */
  lemma PercentileBrackets(bounds: seq<real>, h: seq<Call>, quantile: real, v: real)
    requires StrictBounds(bounds) && h != [] && 0.0 < quantile <= 1.0
    requires OrderStatistic(h, Rank(quantile, |h|), v)
    ensures Percentile(Summary(bounds, h), bounds, quantile) >= v
    ensures Bucket(bounds, v) > 0 ==> bounds[Bucket(bounds, v) - 1] < v
  {
    PercentileBucket(bounds, h, quantile, v);
    if v > LatencyMax(h) {
      CountMonotone(h, Always(), Less(v));
      FilterAll(h, Always());
      FilterLength(h, AtMost(v));
    }
  }

  lemma FilterLength(h: seq<Call>, p: Call -> bool)
    ensures Count(h, p) <= |h|
  {
  }

  /** Percentiles of a larger quantile are never smaller. */
  lemma PercentileMonotone(bounds: seq<real>, h: seq<Call>, q1: real, q2: real)
    requires StrictBounds(bounds) && 0.0 < q1 <= q2 <= 1.0
    ensures Percentile(Summary(bounds, h), bounds, q1) <= Percentile(Summary(bounds, h), bounds, q2)
  {
    if h != [] {
      RankInRange(q1, |h|);
      RankInRange(q2, |h|);
      RankMonotone(q1, q2, |h|);
      var v := Selected(h, Rank(q1, |h|));
      var w := Selected(h, Rank(q2, |h|));
      SelectedOrdered(h, Rank(q1, |h|), v, Rank(q2, |h|), w);
      PercentileBucket(bounds, h, q1, v);
      PercentileBucket(bounds, h, q2, w);
      BucketMonotone(bounds, v, w);
      EdgeMonotone(bounds, h, w, Bucket(bounds, v), Rank(q2, |h|));
    }
  }

  lemma RankMonotone(q1: real, q2: real, calls: nat)
    requires q1 <= q2
    ensures Rank(q1, calls) <= Rank(q2, calls)
  {
    var x, y := q1 * calls as real, q2 * calls as real;
    assert (q2 - q1) * calls as real >= 0.0;
    assert x <= y;
    CeilingMonotone(x, y);
  }

  lemma CeilingMonotone(x: real, y: real)
    requires x <= y
    ensures Ceiling(x) <= Ceiling(y)
  {
  }

  lemma SelectedOrdered(h: seq<Call>, r1: int, v: real, r2: int, w: real)
    requires r1 <= r2 && OrderStatistic(h, r1, v) && OrderStatistic(h, r2, w)
    ensures v <= w
  {
    if w < v { CountMonotone(h, AtMost(w), Less(v)); }
  }

  lemma EdgeMonotone(bounds: seq<real>, h: seq<Call>, w: real, b: nat, rank: int)
    requires StrictBounds(bounds) && b <= Bucket(bounds, w) && OrderStatistic(h, rank, w)
    ensures Edge(Summary(bounds, h), bounds, b) <= Edge(Summary(bounds, h), bounds, Bucket(bounds, w))
  {
    if b < |bounds| == Bucket(bounds, w) {
      assert bounds[b] < w;
      if w > LatencyMax(h) {
        CountMonotone(h, Always(), Less(w));
        FilterAll(h, Always());
      }
    }
  }

  /** The snapshot's three quantiles are ordered. */
  lemma ReportedQuantilesOrdered(bounds: seq<real>, h: seq<Call>)
    requires StrictBounds(bounds)
    ensures var p := (q: real) => Percentile(Summary(bounds, h), bounds, q);
            p(0.50) <= p(0.95) <= p(0.99)
  {
    PercentileMonotone(bounds, h, 0.50, 0.95);
    PercentileMonotone(bounds, h, 0.95, 0.99);
  }

  // -------------------------------------------- every rank has its order statistic

  /** The smallest latency above a threshold. */
  lemma {:induction false} Next(h: seq<Call>, v: real) returns (w: real)
    requires exists c :: c in h && Latency(c) > v
    ensures w > v && (exists c :: c in h && Latency(c) == w)
    ensures forall c :: c in h ==> Latency(c) <= v || Latency(c) >= w
    decreases |h|
  {
    var front, last := h[..|h| - 1], h[|h| - 1];
    assert h == front + [last];
    if exists c :: c in front && Latency(c) > v {
      w := Next(front, v);
      if v < Latency(last) < w { w := Latency(last); }
    } else {
      w := Latency(last);
    }
  }

  lemma {:induction false} Selected(h: seq<Call>, rank: int) returns (v: real)
    requires 1 <= rank <= |h|
    ensures OrderStatistic(h, rank, v)
    decreases rank
  {
    var below: real;
    if rank == 1 {
      below := -1.0;
      FilterNone(h, AtMost(-1.0));
    } else {
      below := Selected(h, rank - 1);
      if Count(h, AtMost(below)) >= rank { return below; }
    }
    SomeAbove(h, below);
    v := Next(h, below);
    CountMonotone(h, Less(v), AtMost(below));
    OneAt(h, below, v);
  }

  lemma SomeAbove(h: seq<Call>, v: real)
    requires Count(h, AtMost(v)) < |h|
    ensures exists c :: c in h && Latency(c) > v
  {
    if forall c :: c in h ==> Latency(c) <= v { FilterAll(h, AtMost(v)); }
  }

  lemma {:induction false} OneAt(h: seq<Call>, below: real, v: real)
    requires below < v && exists c :: c in h && Latency(c) == v
    ensures Count(h, AtMost(below)) + 1 <= Count(h, AtMost(v))
    decreases |h|
  {
    var front, last := h[..|h| - 1], h[|h| - 1];
    assert h == front + [last];
    CountMonotone(front, AtMost(below), AtMost(v));
    if Latency(last) != v { OneAt(front, below, v); }
  }

  // ------------------------------------------------------------------- recent calls

  /** Numbers 1, 1 + N, 1 + 2N, ... without a gap, newest first, and none missing up to n calls. */
  ghost predicate Numbered(s: seq<RecentCall>, n: nat, every: nat) {
    && (n == 0 <==> s == [])
    && (s != [] ==> s[|s| - 1].sequence == 1 && s[0].sequence <= n < s[0].sequence + every)
    && (forall i :: 0 <= i < |s| - 1 ==> s[i].sequence == s[i + 1].sequence + every)
  }

  /** Numbered, and the newest number is one more than a multiple of the sampling distance. */
  lemma {:induction false} SampledNumbers(o: Options, h: seq<Call>)
    requires o.sampleEvery > 0
    ensures Numbered(Sampled(o, h), |h|, o.sampleEvery)
    ensures h != [] ==> Sampled(o, h)[0].sequence >= 1 && (Sampled(o, h)[0].sequence - 1) % o.sampleEvery == 0
    decreases |h|
  {
    if h != [] {
      var n := |h| - 1;
      var before := Sampled(o, h[..n]);
      SampledNumbers(o, h[..n]);
      if n > 0 { NextMultiple(before[0].sequence - 1, n, o.sampleEvery); }
      NumberedStep(before, n, o.sampleEvery, Noted(o, h[n], |h|));
    }
  }

  lemma NumberedStep(before: seq<RecentCall>, n: nat, every: nat, newest: RecentCall)
    requires every > 0 && Numbered(before, n, every) && newest.sequence == n + 1
    ensures n == 0 || n == before[0].sequence - 1 + every ==> Numbered([newest] + before, n + 1, every)
    ensures n > 0 && n != before[0].sequence - 1 + every ==> Numbered(before, n + 1, every)
  {
  }

  /** Each entry of the sampled list is the call of its number. */
  lemma {:induction false} SampledAreCalls(o: Options, h: seq<Call>, i: nat)
    requires i < |Sampled(o, h)|
    ensures var call := Sampled(o, h)[i];
            1 <= call.sequence <= |h| && call == Noted(o, h[call.sequence - 1], call.sequence)
    decreases |h|
  {
    var n := |h| - 1;
    var before := Sampled(o, h[..n]);
    if |before| == |Sampled(o, h)| {
      SampledAreCalls(o, h[..n], i);
    } else if i > 0 {
      SampledAreCalls(o, h[..n], i - 1);
    }
  }

  lemma NextMultiple(a: nat, n: nat, every: nat)
    requires every > 0 && a % every == 0 && a < n <= a + every
    ensures n % every == 0 <==> n == a + every
  {
    var q := a / every;
    assert a == every * q;
    if n == a + every {
      assert n == every * (q + 1);
      RemainderUnique(n, q + 1, 0, every);
    } else {
      RemainderUnique(n, q, n - a, every);
    }
  }

  lemma RemainderUnique(n: nat, q: nat, r: nat, every: nat)
    requires every > 0 && n == every * q + r && r < every
    ensures n % every == r
  {
    var p := n / every;
    assert n == every * p + n % every;
    Spread(p - q, every);
    assert every * (p - q) == every * p - every * q;
  }

  lemma Spread(d: int, every: int)
    requires every > 0
    ensures (d >= 1 ==> every * d >= every) && (d <= -1 ==> every * d <= -every)
  {
  }

  /** The recent list is the newest of them, as many as it may hold. */
  lemma RecentIsNewest(o: Options, h: seq<Call>)
    ensures Recent(o, h) <= Sampled(o, h) && |Recent(o, h)| <= o.recentCapacity
    ensures |Recent(o, h)| < o.recentCapacity ==> Recent(o, h) == Sampled(o, h)
  {
  }
}
