/** Call diagnostics: what the counters, histograms, per-decision table and recent list hold is given as a
    function of the calls recorded since the last reset, and the object updates them one call at a time. */
module Diagnostics {
  import opened Wrappers
  import opened Lists

  datatype Outcome = Success | Error | Abstain

  datatype Call = Call(
    decision: string, outcome: Outcome, latency: real, time: int, tag: Option<string>,
    inputTokens: nat, outputTokens: nat)

  datatype Options = Options(
    bounds: seq<real>, maxDecisions: nat, recentCapacity: nat, sampleEvery: nat, maxTagLength: nat)

  datatype Counters = Counters(
    calls: nat, successes: nat, errors: nat, abstains: nat, latencySum: real, latencyMax: real,
    buckets: seq<nat>, inputTokens: nat, outputTokens: nat)

  datatype RecentCall = RecentCall(
    sequence: nat, time: int, decision: string, outcome: Outcome, latency: real, tag: Option<string>)

  /** Negative clock differences count as zero. */
  function Latency(c: Call): real {
    if c.latency < 0.0 then 0.0 else c.latency
  }

  ghost predicate StrictBounds(bounds: seq<real>) {
    && bounds != [] && (forall i :: 0 <= i < |bounds| ==> bounds[i] > 0.0)
    && forall i, j :: 0 <= i < j < |bounds| ==> bounds[i] < bounds[j]
  }

  /** The constructor's test: not empty, sorted, positive, no equal neighbours. */
  method CheckBounds(bounds: seq<real>) returns (ok: bool)
    ensures ok <==> StrictBounds(bounds)
  {
    if bounds == [] { return false; }
    for i := 0 to |bounds|
      invariant forall j :: 0 <= j < i ==> bounds[j] > 0.0
      invariant forall j, k :: 0 <= j < k < i ==> bounds[j] < bounds[k]
    {
      if bounds[i] <= 0.0 { return false; }
      if i > 0 && bounds[i] <= bounds[i - 1] { return false; }
    }
    ok := true;
  }

  /** The first bucket whose upper bound is not below the latency, or the overflow bucket. */
  function Bucket(bounds: seq<real>, x: real): (b: nat)
    ensures b <= |bounds| && (forall i :: 0 <= i < b ==> bounds[i] < x) && (b < |bounds| ==> bounds[b] >= x)
  {
    if bounds == [] || bounds[0] >= x then 0 else 1 + Bucket(bounds[1..], x)
  }

  // ---------------------------------------------------- counters of a list of calls

  function HasOutcome(o: Outcome): Call -> bool { (c: Call) => c.outcome == o }

  function InBucket(bounds: seq<real>, b: nat): Call -> bool { (c: Call) => Bucket(bounds, Latency(c)) == b }

  function OfDecision(name: string): Call -> bool { (c: Call) => c.decision == name }

  function Count(h: seq<Call>, p: Call -> bool): (n: nat)
    ensures n <= |h|
  {
    |Filter(h, p)|
  }

  function LatencySum(h: seq<Call>): real
    decreases |h|
  {
    if h == [] then 0.0 else LatencySum(h[..|h| - 1]) + Latency(h[|h| - 1])
  }

  function LatencyMax(h: seq<Call>): (m: real)
    ensures m >= 0.0
    ensures forall i :: 0 <= i < |h| ==> Latency(h[i]) <= m
    ensures m == 0.0 || exists i :: 0 <= i < |h| && Latency(h[i]) == m
    decreases |h|
  {
    if h == [] then 0.0
    else
      var n := |h| - 1;
      var rest := LatencyMax(h[..n]);
      if Latency(h[n]) > rest then Latency(h[n]) else rest
  }

  function InputTokens(h: seq<Call>): nat
    decreases |h|
  {
    if h == [] then 0 else InputTokens(h[..|h| - 1]) + h[|h| - 1].inputTokens
  }

  function OutputTokens(h: seq<Call>): nat
    decreases |h|
  {
    if h == [] then 0 else OutputTokens(h[..|h| - 1]) + h[|h| - 1].outputTokens
  }

  function Histogram(bounds: seq<real>, h: seq<Call>): (r: seq<nat>)
    ensures |r| == |bounds| + 1 && forall b :: 0 <= b <= |bounds| ==> r[b] == Count(h, InBucket(bounds, b))
  {
    seq(|bounds| + 1, b requires 0 <= b <= |bounds| => Count(h, InBucket(bounds, b)))
  }

  function Summary(bounds: seq<real>, h: seq<Call>): Counters {
    Counters(|h|, Count(h, HasOutcome(Success)), Count(h, HasOutcome(Error)), Count(h, HasOutcome(Abstain)),
             LatencySum(h), LatencyMax(h), Histogram(bounds, h), InputTokens(h), OutputTokens(h))
  }

  /** Decisions that have counters of their own, in the order they first appeared. */
  function Tracked(limit: nat, h: seq<Call>): seq<string>
    decreases |h|
  {
    if h == [] then []
    else
      var before, name := Tracked(limit, h[..|h| - 1]), h[|h| - 1].decision;
      if name in before || |before| >= limit then before else before + [name]
  }

  /** Counters of the calls of one decision. */
  function Own(bounds: seq<real>, h: seq<Call>, name: string): Counters {
    Summary(bounds, Filter(h, OfDecision(name)))
  }

  function Table(bounds: seq<real>, names: seq<string>, h: seq<Call>): map<string, Counters> {
    map name | name in names :: Own(bounds, h, name)
  }

  function PerDecision(o: Options, h: seq<Call>): map<string, Counters> {
    Table(o.bounds, Tracked(o.maxDecisions, h), h)
  }

  function Outside(names: seq<string>): Call -> bool { (c: Call) => c.decision !in names }

  /** Calls of decisions that never got counters. */
  function Dropped(o: Options, h: seq<Call>): nat {
    Count(h, Outside(Tracked(o.maxDecisions, h)))
  }

  function Noted(o: Options, c: Call, sequence: nat): RecentCall {
    RecentCall(sequence, c.time, c.decision, c.outcome, Latency(c),
               if c.tag.Some? then Some(Take(c.tag.value, o.maxTagLength)) else None)
  }

  /** Every sampled call, newest first. */
  function Sampled(o: Options, h: seq<Call>): seq<RecentCall>
    decreases |h|
  {
    if h == [] then []
    else
      var n := |h| - 1;
      var before := Sampled(o, h[..n]);
      if o.sampleEvery != 0 && n % o.sampleEvery == 0 then [Noted(o, h[n], |h|)] + before else before
  }

  function Recent(o: Options, h: seq<Call>): seq<RecentCall> {
    Take(Sampled(o, h), o.recentCapacity)
  }

  // ------------------------------------------------------------------ the object

  class Recorder {
    const options: Options
    var total: Counters
    var decisions: map<string, Counters>
    var recent: seq<RecentCall>
    var dropped: nat
    ghost var history: seq<Call>

    ghost predicate Valid()
      reads this
    {
      && total == Summary(options.bounds, history)
      && decisions == PerDecision(options, history)
      && recent == Recent(options, history)
      && dropped == Dropped(options, history)
    }

    constructor (options: Options)
      requires StrictBounds(options.bounds)
      ensures Valid() && history == [] && this.options == options
    {
      this.options := options;
      history := [];
      total := Fresh(options.bounds);
      decisions := map[];
      recent := [];
      dropped := 0;
      new;
      FreshIsSummary(options.bounds);
    }

    method RecordCall(call: Call)
      requires Valid()
      modifies this
      ensures Valid() && history == old(history) + [call]
    {
      var bucket := Bucket(options.bounds, Latency(call));
      total := Updated(total, call, bucket);
      UpdateIsSummary(options.bounds, history, call);
      CountDecision(call, bucket);
      Note(call);
      history := history + [call];
    }

    method CountDecision(call: Call, bucket: nat)
      requires decisions == PerDecision(options, history) && dropped == Dropped(options, history)
      requires bucket == Bucket(options.bounds, Latency(call))
      modifies this`decisions, this`dropped
      ensures decisions == PerDecision(options, history + [call]) && dropped == Dropped(options, history + [call])
    {
      TrackedStep(options, history, call);
      var name := call.decision;
      if name in decisions {
        KnownDecision(options, history, call);
        decisions := decisions[name := Updated(decisions[name], call, bucket)];
      } else if |decisions| < options.maxDecisions {
        NewDecision(options, history, call);
        decisions := decisions[name := Updated(Fresh(options.bounds), call, bucket)];
      } else {
        DroppedDecision(options, history, call);
        dropped := dropped + 1;
      }
    }

    method Note(call: Call)
      requires recent == Recent(options, history) && total.calls == |history| + 1
      modifies this`recent
      ensures recent == Recent(options, history + [call])
    {
      assert (history + [call])[..|history|] == history;
      if options.recentCapacity != 0 && options.sampleEvery != 0 && (total.calls - 1) % options.sampleEvery == 0 {
        recent := [Noted(options, call, total.calls)] + recent;
        if |recent| > options.recentCapacity { recent := recent[..|recent| - 1]; }
      }
    }

    method Reset()
      modifies this
      ensures Valid() && history == []
    {
      history := [];
      total := Fresh(options.bounds);
      decisions := map[];
      recent := [];
      dropped := 0;
      FreshIsSummary(options.bounds);
    }
  }

  function Fresh(bounds: seq<real>): Counters {
    Counters(0, 0, 0, 0, 0.0, 0.0, seq(|bounds| + 1, _ => 0), 0, 0)
  }

  lemma FreshIsSummary(bounds: seq<real>)
    ensures Fresh(bounds) == Summary(bounds, [])
  {
    assert Fresh(bounds).buckets == Histogram(bounds, []);
  }

  /** One call added to the counters, as the update closure does it. */
  function Updated(c: Counters, call: Call, bucket: nat): Counters
    requires bucket < |c.buckets|
  {
    Counters(
      c.calls + 1,
      c.successes + (if call.outcome == Success then 1 else 0),
      c.errors + (if call.outcome == Error then 1 else 0),
      c.abstains + (if call.outcome == Abstain then 1 else 0),
      c.latencySum + Latency(call),
      if Latency(call) > c.latencyMax then Latency(call) else c.latencyMax,
      c.buckets[bucket := c.buckets[bucket] + 1],
      c.inputTokens + call.inputTokens,
      c.outputTokens + call.outputTokens)
  }

  lemma CountNext(h: seq<Call>, call: Call, p: Call -> bool)
    ensures Filter(h + [call], p) == Filter(h, p) + if p(call) then [call] else []
    ensures Count(h + [call], p) == Count(h, p) + if p(call) then 1 else 0
  {
    assert (h + [call])[..|h|] == h;
  }

  lemma HistogramNext(bounds: seq<real>, h: seq<Call>, call: Call)
    ensures var b := Bucket(bounds, Latency(call));
            Histogram(bounds, h + [call]) == Histogram(bounds, h)[b := Histogram(bounds, h)[b] + 1]
  {
    var b := Bucket(bounds, Latency(call));
    var was := Histogram(bounds, h);
    forall k | 0 <= k <= |bounds| ensures Histogram(bounds, h + [call])[k] == was[b := was[b] + 1][k] {
      CountNext(h, call, InBucket(bounds, k));
    }
  }

  /** Updating the counters keeps them the summary of all calls. */
  lemma UpdateIsSummary(bounds: seq<real>, h: seq<Call>, call: Call)
    ensures Updated(Summary(bounds, h), call, Bucket(bounds, Latency(call))) == Summary(bounds, h + [call])
  {
    assert (h + [call])[..|h|] == h;
    CountNext(h, call, HasOutcome(Success));
    CountNext(h, call, HasOutcome(Error));
    CountNext(h, call, HasOutcome(Abstain));
    HistogramNext(bounds, h, call);
  }

  // ---------------------------------------------------------- the per-decision table

  lemma {:induction false} TrackedDistinct(limit: nat, h: seq<Call>)
    ensures |Tracked(limit, h)| <= limit
    ensures forall i, j :: 0 <= i < j < |Tracked(limit, h)| ==> Tracked(limit, h)[i] != Tracked(limit, h)[j]
    decreases |h|
  {
    if h != [] { TrackedDistinct(limit, h[..|h| - 1]); }
  }

  /** While there is room, every decision seen is tracked. */
  lemma {:induction false} SeenIsTracked(limit: nat, h: seq<Call>, name: string)
    requires name !in Tracked(limit, h) && |Tracked(limit, h)| < limit
    ensures Filter(h, OfDecision(name)) == []
    decreases |h|
  {
    if h != [] { SeenIsTracked(limit, h[..|h| - 1], name); }
  }

  lemma DistinctSize(names: seq<string>, table: map<string, Counters>)
    requires forall i, j :: 0 <= i < j < |names| ==> names[i] != names[j]
    requires forall name :: name in names <==> name in table
    ensures |table| == |names|
  {
    NamesSize(names);
    assert table.Keys == set name | name in names;
  }

  lemma {:induction false} NamesSize(names: seq<string>)
    requires forall i, j :: 0 <= i < j < |names| ==> names[i] != names[j]
    ensures |set name | name in names| == |names|
    decreases |names|
  {
    if names != [] {
      var n := |names| - 1;
      NamesSize(names[..n]);
      assert (set name | name in names) == (set name | name in names[..n]) + {names[n]};
    }
  }

  lemma TrackedStep(o: Options, h: seq<Call>, call: Call)
    ensures |PerDecision(o, h)| == |Tracked(o.maxDecisions, h)|
    ensures var before, name := Tracked(o.maxDecisions, h), call.decision;
            Tracked(o.maxDecisions, h + [call])
              == if name in before || |before| >= o.maxDecisions then before else before + [name]
  {
    TrackedDistinct(o.maxDecisions, h);
    DistinctSize(Tracked(o.maxDecisions, h), PerDecision(o, h));
    assert (h + [call])[..|h|] == h;
  }

  lemma OwnNext(bounds: seq<real>, h: seq<Call>, call: Call, name: string)
    ensures Own(bounds, h + [call], name)
         == if name == call.decision then Updated(Own(bounds, h, name), call, Bucket(bounds, Latency(call)))
            else Own(bounds, h, name)
  {
    var own := Filter(h, OfDecision(name));
    CountNext(h, call, OfDecision(name));
    assert own + [] == own;
    UpdateIsSummary(bounds, own, call);
  }

  /** The table after one more call: only the row of its decision changes. */
  lemma TableNext(bounds: seq<real>, names: seq<string>, h: seq<Call>, call: Call)
    ensures var table := Table(bounds, names, h);
            Table(bounds, names, h + [call])
              == if call.decision in names
                 then table[call.decision :=
                   Updated(Own(bounds, h, call.decision), call, Bucket(bounds, Latency(call)))]
                 else table
  {
    forall name | name in names
      ensures Own(bounds, h + [call], name)
           == if name == call.decision then Updated(Own(bounds, h, name), call, Bucket(bounds, Latency(call)))
              else Own(bounds, h, name)
    {
      OwnNext(bounds, h, call, name);
    }
    OneRowChanged(Table(bounds, names, h), Table(bounds, names, h + [call]), call.decision,
                  Updated(Own(bounds, h, call.decision), call, Bucket(bounds, Latency(call))));
  }

  lemma OneRowChanged(before: map<string, Counters>, after: map<string, Counters>, key: string, row: Counters)
    requires before.Keys == after.Keys
    requires forall k :: k in before ==> after[k] == if k == key then row else before[k]
    ensures after == if key in before then before[key := row] else before
  {
  }

  lemma TableGrows(bounds: seq<real>, names: seq<string>, h: seq<Call>, name: string)
    ensures Table(bounds, names + [name], h) == Table(bounds, names, h)[name := Own(bounds, h, name)]
  {
  }

  lemma KnownDecision(o: Options, h: seq<Call>, call: Call)
    requires call.decision in Tracked(o.maxDecisions, h)
    ensures var table := PerDecision(o, h);
            && PerDecision(o, h + [call])
               == table[call.decision := Updated(table[call.decision], call, Bucket(o.bounds, Latency(call)))]
            && Dropped(o, h + [call]) == Dropped(o, h)
  {
    TrackedStep(o, h, call);
    TableNext(o.bounds, Tracked(o.maxDecisions, h), h, call);
    CountNext(h, call, Outside(Tracked(o.maxDecisions, h)));
  }

  lemma NewDecision(o: Options, h: seq<Call>, call: Call)
    requires call.decision !in Tracked(o.maxDecisions, h) && |Tracked(o.maxDecisions, h)| < o.maxDecisions
    ensures PerDecision(o, h + [call])
         == PerDecision(o, h)[call.decision := Updated(Fresh(o.bounds), call, Bucket(o.bounds, Latency(call)))]
    ensures Dropped(o, h + [call]) == Dropped(o, h)
  {
    TrackedStep(o, h, call);
    var names := Tracked(o.maxDecisions, h);
    SeenIsTracked(o.maxDecisions, h, call.decision);
    FreshIsSummary(o.bounds);
    TableNext(o.bounds, names, h, call);
    OwnNext(o.bounds, h, call, call.decision);
    TableGrows(o.bounds, names, h + [call], call.decision);
    CountNext(h, call, Outside(names + [call.decision]));
    OneMoreName(h, names, call.decision);
  }

  lemma {:induction false} OneMoreName(h: seq<Call>, names: seq<string>, name: string)
    requires Filter(h, OfDecision(name)) == []
    ensures Filter(h, Outside(names + [name])) == Filter(h, Outside(names))
    decreases |h|
  {
    if h != [] { OneMoreName(h[..|h| - 1], names, name); }
  }

  lemma DroppedDecision(o: Options, h: seq<Call>, call: Call)
    requires call.decision !in Tracked(o.maxDecisions, h) && |Tracked(o.maxDecisions, h)| >= o.maxDecisions
    ensures PerDecision(o, h + [call]) == PerDecision(o, h) && Dropped(o, h + [call]) == Dropped(o, h) + 1
  {
    TrackedStep(o, h, call);
    TableNext(o.bounds, Tracked(o.maxDecisions, h), h, call);
    CountNext(h, call, Outside(Tracked(o.maxDecisions, h)));
  }
}
