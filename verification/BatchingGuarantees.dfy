/** What callers of the batching executor may rely on: exactly-once completion, a bounded
    drain, no starvation behind length buckets, and answers that belong to their own row. */
module BatchingGuarantees {
  import opened Batching
  import opened BatchingSafety
  import opened Wrappers

  // ------------------------------------------------- exactly once, and the drain

  ghost predicate AllExited(s: State) {
    forall w :: 0 <= w < |s.workers| ==> s.workers[w].Exited?
  }

  function Completions(log: seq<Delivery>, id: nat): nat {
    if log == [] then 0 else (if log[0].id == id then 1 else 0) + Completions(log[1..], id)
  }

  lemma {:induction false} CountDistinct(log: seq<Delivery>, id: nat)
    requires forall i, j :: 0 <= i < j < |log| ==> log[i].id != log[j].id
    ensures Completions(log, id) == if exists i :: 0 <= i < |log| && log[i].id == id then 1 else 0
  {
    if log != [] {
      var rest := log[1..];
      CountDistinct(rest, id);
      if i :| 0 < i < |log| && log[i].id == id {
        assert rest[i - 1].id == id;
      }
      if i :| 0 <= i < |rest| && rest[i].id == id {
        assert log[i + 1].id == id;
      }
    }
  }

  /** In every reachable state a finished row has exactly one completion in the log and any other row has none; an
      accepted row that is not finished is still queued or held. */
  lemma CompletedOnce(cfg: Config, s: State, id: nat)
    requires Reachable(cfg, s)
    ensures Completions(s.ledger.log, id) == if id in s.ledger.finished then 1 else 0
    ensures id in s.ledger.finished ==> id < s.accepted
    ensures id < s.accepted && id !in s.ledger.finished ==> Live(s, id)
  {
    ReachableInv(cfg, s);
    CountDistinct(s.ledger.log, id);
    assert id in s.ledger.finished <==> exists i :: 0 <= i < |s.ledger.log| && s.ledger.log[i].id == id;
  }

  /** A step only appends to the log, to the finished rows and to the requests admitted. */
  lemma StepGrows(cfg: Config, s: State, step: Step)
    requires Inv(cfg, s) && Enabled(cfg, s, step)
    ensures var t := Next(cfg, s, step);
            s.ledger.log <= t.ledger.log && s.ledger.finished <= t.ledger.finished && s.admitted <= t.admitted
  {
    match step
    case Preflight(w, checks) =>
      var batch := s.workers[w].batch;
      assert StageOk(s.workers[w], s.ledger.finished) && Held(s.workers[w]) == batch;
      ScreenOnce(s.ledger, batch, checks);
    case Answer(w, outcome, late) =>
      var targets := Targets(s.workers[w], outcome);
      FinishAllOnce(s.ledger, targets, Replies(|targets|, outcome), late);
    case _ =>
  }

  lemma {:induction false} RunGrows(cfg: Config, s: State, steps: seq<Step>, t: State)
    requires Inv(cfg, s) && Run(cfg, s, steps, t)
    ensures s.ledger.log <= t.ledger.log && s.ledger.finished <= t.ledger.finished && s.admitted <= t.admitted
    decreases |steps|
  {
    if steps != [] {
      StepKeeps(cfg, s, steps[0]);
      StepGrows(cfg, s, steps[0]);
      RunGrows(cfg, Next(cfg, s, steps[0]), steps[1..], t);
    }
  }

  lemma {:induction false} RunConcat(cfg: Config, s: State, first: seq<Step>, u: State, second: seq<Step>, t: State)
    requires Run(cfg, s, first, u) && Run(cfg, u, second, t)
    ensures Run(cfg, s, first + second, t)
    decreases |first|
  {
    if first == [] {
      assert first + second == second;
    } else {
      assert (first + second)[0] == first[0] && (first + second)[1..] == first[1..] + second;
      RunConcat(cfg, Next(cfg, s, first[0]), first[1..], u, second, t);
    }
  }

  lemma ReachableOn(cfg: Config, s: State, steps: seq<Step>, t: State)
    requires Reachable(cfg, s) && Run(cfg, s, steps, t)
    ensures Reachable(cfg, t)
  {
    var workers: nat, before: seq<Step> :| workers > 0 && Run(cfg, Initial(workers), before, s);
    RunConcat(cfg, Initial(workers), before, s, steps, t);
  }

  lemma ReachableNext(cfg: Config, s: State, step: Step)
    requires Reachable(cfg, s) && Enabled(cfg, s, step)
    ensures Reachable(cfg, Next(cfg, s, step))
  {
    assert [step][1..] == [] && Run(cfg, Next(cfg, s, step), [], Next(cfg, s, step));
    ReachableOn(cfg, s, [step], Next(cfg, s, step));
  }

  /** Over any continuation of any run no completion is repeated, changed or withdrawn. */
  lemma NeverTwice(cfg: Config, s: State, steps: seq<Step>, t: State, id: nat)
    requires Reachable(cfg, s) && Run(cfg, s, steps, t)
    ensures s.ledger.log <= t.ledger.log
    ensures Completions(s.ledger.log, id) <= Completions(t.ledger.log, id) <= 1
  {
    ReachableInv(cfg, s);
    RunGrows(cfg, s, steps, t);
    ReachableOn(cfg, s, steps, t);
    CompletedOnce(cfg, s, id);
    CompletedOnce(cfg, t, id);
  }

  /** Once every worker has left, each accepted row was completed exactly once and none is left behind. */
  lemma Drained(cfg: Config, s: State)
    requires Reachable(cfg, s) && AllExited(s)
    ensures s.stopping && s.queue == [] && s.inFlight == 0 && s.completed == s.accepted
    ensures forall id: nat :: Completions(s.ledger.log, id) == if id < s.accepted then 1 else 0
  {
    ReachableInv(cfg, s);
    assert s.workers[0].Exited?;
    NothingHeld(s.workers);
    forall id: nat ensures Completions(s.ledger.log, id) == if id < s.accepted then 1 else 0 {
      CompletedOnce(cfg, s, id);
      assert forall w :: 0 <= w < |s.workers| ==> Ids(Held(s.workers[w])) == {};
    }
  }

  function Rank(worker: Worker, idle: bool): nat {
    match worker
    case Exited => 0
    case Waiting => 2
    case Anchored => if idle then 3 else 1
    case Settled(_) => 3
    case Calling(_, _) => 4
    case Holding(_) => 5
  }

  function Ranks(workers: seq<Worker>, idle: bool): nat {
    if workers == [] then 0 else Rank(workers[0], idle) + Ranks(workers[1..], idle)
  }

  /** An upper bound on the worker steps still to come once admission is closed. */
  function Measure(s: State): nat {
    |s.queue| * (2 * |s.workers| + 5) + Ranks(s.workers, s.queue == [])
  }

  lemma {:induction false} RanksUpdate(workers: seq<Worker>, w: nat, worker: Worker, idle: bool)
    requires w < |workers|
    ensures Ranks(workers[w := worker], idle) == Ranks(workers, idle) - Rank(workers[w], idle) + Rank(worker, idle)
  {
    if w == 0 {
      assert workers[0 := worker][1..] == workers[1..];
    } else {
      assert workers[w := worker][1..] == workers[1..][w - 1 := worker];
      RanksUpdate(workers[1..], w - 1, worker, idle);
    }
  }

  lemma {:induction false} RanksIdle(workers: seq<Worker>)
    ensures Ranks(workers, true) <= Ranks(workers, false) + 2 * |workers|
  {
    if workers != [] { RanksIdle(workers[1..]); }
  }

  predicate ByWorker(step: Step) {
    !step.Submit? && !step.SubmitCallback? && !step.Shutdown?
  }

  function Actor(step: Step): nat
    requires ByWorker(step)
  {
    match step
    case Wake(w) => w
    case Take(w) => w
    case Preflight(w, _) => w
    case Answer(w, _, _) => w
    case Release(w) => w
  }

  /** No worker is ever stuck: one that has not left can step, unless it waits while nothing is queued and
      admission is open. */
  lemma NoWorkerStuck(cfg: Config, s: State, w: nat) returns (step: Step)
    requires w < |s.workers| && !s.workers[w].Exited?
    requires s.workers[w].Waiting? ==> s.stopping || s.queue != []
    ensures ByWorker(step) && Actor(step) == w && Enabled(cfg, s, step)
  {
    match s.workers[w]
    case Waiting => step := Wake(w);
    case Anchored => step := Take(w);
    case Holding(batch) => step := Preflight(w, seq(|batch|, _ => Check(None, None)));
    case Calling(batch, active) => step := Answer(w, Threw, seq(|Targets(s.workers[w], Threw)|, _ => None));
    case Settled(_) => step := Release(w);
  }

  /** The executor is open exactly until shutdown is called. */
  lemma {:induction false} StoppingIff(cfg: Config, s: State, steps: seq<Step>, t: State)
    requires Run(cfg, s, steps, t)
    ensures t.stopping <==> s.stopping || Shutdown in steps
    decreases |steps|
  {
    if steps != [] { StoppingIff(cfg, Next(cfg, s, steps[0]), steps[1..], t); }
  }

  lemma OpenUntilShutdown(cfg: Config, workers: nat, steps: seq<Step>, t: State)
    requires Run(cfg, Initial(workers), steps, t)
    ensures t.stopping <==> Shutdown in steps
    ensures |t.workers| == workers
  {
    StoppingIff(cfg, Initial(workers), steps, t);
    InitialInv(cfg, workers);
    RunKeeps(cfg, Initial(workers), steps, t);
  }

  /** While any accepted row is unanswered for, or shutdown has begun and a worker has not left, some worker can
      step: the executor cannot deadlock. */
  lemma NoDeadlock(cfg: Config, s: State) returns (step: Step)
    requires Reachable(cfg, s) && (s.completed < s.accepted || (s.stopping && !AllExited(s)))
    ensures ByWorker(step) && Enabled(cfg, s, step)
  {
    ReachableInv(cfg, s);
    var w: nat;
    if s.stopping && !AllExited(s) {
      w :| w < |s.workers| && !s.workers[w].Exited?;
    } else if s.queue != [] {
      w := 0;
    } else {
      w := SomeHolder(s.workers);
    }
    step := NoWorkerStuck(cfg, s, w);
  }

  lemma {:induction false} SomeHolder(workers: seq<Worker>) returns (w: nat)
    requires SumHeld(workers) > 0
    ensures w < |workers| && Held(workers[w]) != []
  {
    if Held(workers[0]) != [] {
      w := 0;
    } else {
      w := SomeHolder(workers[1..]);
      w := w + 1;
    }
  }

  lemma DrainStep(cfg: Config, s: State, step: Step)
    requires ValidConfig(cfg) && s.stopping && Enabled(cfg, s, step)
    ensures var t := Next(cfg, s, step);
            t.stopping && |t.workers| == |s.workers| && Measure(t) + (if ByWorker(step) then 1 else 0) <= Measure(s)
  {
    var t := Next(cfg, s, step);
    if ByWorker(step) {
      var w := Actor(step);
      RanksUpdate(s.workers, w, t.workers[w], s.queue == []);
      if step.Take? && s.queue != [] {
        SplitParts(cfg, s.queue, Bucket(cfg, s.queue[0]), cfg.maxBatch);
        RanksIdle(t.workers);
        FewerRows(|t.queue|, |s.queue|, 2 * |s.workers| + 5);
      }
    }
  }

  lemma FewerRows(fewer: nat, rows: nat, weight: nat)
    requires fewer < rows
    ensures fewer * weight + weight <= rows * weight
  {
    assert (fewer + 1) * weight <= rows * weight;
  }

  function WorkerSteps(steps: seq<Step>): nat {
    if steps == [] then 0 else (if ByWorker(steps[0]) then 1 else 0) + WorkerSteps(steps[1..])
  }

  /** After shutdown begins the workers take at most Measure(s) steps, however callers interfere. */
  lemma {:induction false} DrainBounded(cfg: Config, s: State, steps: seq<Step>, t: State)
    requires ValidConfig(cfg) && s.stopping && Run(cfg, s, steps, t)
    ensures t.stopping && WorkerSteps(steps) + Measure(t) <= Measure(s)
    ensures Measure(t) == 0 ==> AllExited(t)
    decreases |steps|
  {
    if steps != [] {
      DrainStep(cfg, s, steps[0]);
      DrainBounded(cfg, Next(cfg, s, steps[0]), steps[1..], t);
    } else if Measure(t) == 0 {
      ZeroRank(t.workers, t.queue == []);
    }
  }

  lemma {:induction false} ZeroRank(workers: seq<Worker>, idle: bool)
    requires Ranks(workers, idle) == 0
    ensures forall w :: 0 <= w < |workers| ==> workers[w].Exited?
  {
    if workers != [] { ZeroRank(workers[1..], idle); }
  }

  /** Joining terminates: from any state with shutdown begun, the workers' own steps lead to where all have left. */
  lemma {:induction false} DrainReached(cfg: Config, s: State) returns (steps: seq<Step>, t: State)
    requires ValidConfig(cfg) && s.stopping
    ensures Run(cfg, s, steps, t) && AllExited(t) && WorkerSteps(steps) == |steps|
    decreases Measure(s)
  {
    if AllExited(s) {
      steps, t := [], s;
    } else {
      var w: nat :| w < |s.workers| && !s.workers[w].Exited?;
      var step := NoWorkerStuck(cfg, s, w);
      DrainStep(cfg, s, step);
      steps, t := DrainReached(cfg, Next(cfg, s, step));
      steps := [step] + steps;
      assert steps[1..] == [step][1..] + steps[1..];
    }
  }

  /** Shutdown at any moment of any run ends with every row accepted until then completed exactly once. */
  lemma ShutdownCompletes(cfg: Config, s: State) returns (steps: seq<Step>, t: State)
    requires ValidConfig(cfg) && Reachable(cfg, s)
    ensures Run(cfg, s, [Shutdown] + steps, t) && AllExited(t) && WorkerSteps(steps) == |steps|
    ensures t.accepted == t.completed == s.accepted
    ensures forall id: nat :: Completions(t.ledger.log, id) == if id < s.accepted then 1 else 0
  {
    var stopped := Next(cfg, s, Shutdown);
    steps, t := DrainReached(cfg, stopped);
    WorkersAdmitNothing(cfg, stopped, steps, t);
    assert ([Shutdown] + steps)[1..] == steps;
    ReachableOn(cfg, s, [Shutdown] + steps, t);
    Drained(cfg, t);
  }

  lemma {:induction false} WorkersAdmitNothing(cfg: Config, s: State, steps: seq<Step>, t: State)
    requires Run(cfg, s, steps, t) && WorkerSteps(steps) == |steps|
    ensures t.accepted == s.accepted
    decreases |steps|
  {
    if steps != [] {
      AtMostAll(steps[1..]);
      WorkersAdmitNothing(cfg, Next(cfg, s, steps[0]), steps[1..], t);
    }
  }

  lemma {:induction false} AtMostAll(steps: seq<Step>)
    ensures WorkerSteps(steps) <= |steps|
  {
    if steps != [] { AtMostAll(steps[1..]); }
  }

  // ----------------------------------------------------------- order of service

  /** How many of the first p queued jobs this dequeue takes. */
  function TakenBefore(cfg: Config, queue: seq<Job>, key: nat, room: nat, p: nat): nat
    requires p <= |queue|
  {
    |Split(cfg, queue[..p], key, room).0|
  }

  /** Exactly where the job at position p goes: into the batch if its bucket is served and there
      is still room after the jobs ahead of it, else forward by the number of those taken. */
  lemma {:induction false} SplitPlace(cfg: Config, queue: seq<Job>, key: nat, room: nat, p: nat)
    requires p < |queue|
    ensures var n := TakenBefore(cfg, queue, key, room, p);
            var (taken, kept) := Split(cfg, queue, key, room);
            && n <= p && n <= room
            && if Bucket(cfg, queue[p]) == key && n < room
               then n < |taken| && taken[n] == queue[p]
               else p - n < |kept| && kept[p - n] == queue[p]
  {
    SplitParts(cfg, queue[..p], key, room);
    if p == 0 {
      assert queue[..p] == [];
    } else {
      assert queue[..p][0] == queue[0];
      assert queue[..p][1..] == queue[1..][..p - 1];
      var takes := room > 0 && Bucket(cfg, queue[0]) == key;
      SplitPlace(cfg, queue[1..], key, if takes then room - 1 else room, p - 1);
    }
  }

  /** TakenBefore counts along the queue, so it can only grow. */
  lemma {:induction false} TakenGrows(cfg: Config, queue: seq<Job>, key: nat, room: nat, p: nat, q: nat)
    requires p <= q <= |queue|
    ensures TakenBefore(cfg, queue, key, room, p) <= TakenBefore(cfg, queue, key, room, q)
    ensures p < q && Bucket(cfg, queue[p]) == key && TakenBefore(cfg, queue, key, room, p) < room ==>
              TakenBefore(cfg, queue, key, room, p) < TakenBefore(cfg, queue, key, room, q)
  {
    if p == 0 {
      assert queue[..p] == [];
      if q > 0 { assert queue[..q][0] == queue[0]; }
    } else {
      assert queue[..p][0] == queue[0] && queue[..q][0] == queue[0];
      assert queue[..p][1..] == queue[1..][..p - 1] && queue[..q][1..] == queue[1..][..q - 1];
      var takes := room > 0 && Bucket(cfg, queue[0]) == key;
      TakenGrows(cfg, queue[1..], key, if takes then room - 1 else room, p - 1, q - 1);
    }
  }

  /** The size of a request is the length of its texts put together. */
  lemma {:induction false} BytesAre(texts: seq<string>)
    ensures Bytes(texts) == |Joined(texts)|
  {
    if texts != [] { BytesAre(texts[1..]); }
  }

  function Joined(texts: seq<string>): string {
    if texts == [] then "" else texts[0] + Joined(texts[1..])
  }

  /** Jobs share a bucket when their sizes fall into the same interval of the configured width; without a width there
      is one bucket. */
  lemma BucketIs(cfg: Config, job: Job)
    ensures cfg.bucketWidth == 0 ==> Bucket(cfg, job) == 0
    ensures cfg.bucketWidth > 0 ==>
              var b, size := Bucket(cfg, job), |Joined(job.request.texts)|;
              b * cfg.bucketWidth <= size < (b + 1) * cfg.bucketWidth
  {
    BytesAre(job.request.texts);
    if cfg.bucketWidth > 0 { Quotient(Bytes(job.request.texts), cfg.bucketWidth); }
  }

  lemma Quotient(n: nat, d: nat)
    requires d > 0
    ensures n / d * d <= n < (n / d + 1) * d
  {
  }

  /** Backend calls a run makes: preflights that leave a row. */
  function BackendCalls(steps: seq<Step>): nat {
    if steps == [] then 0
    else
      (if steps[0].Preflight? && SomeRowLeft(steps[0].checks) then 1 else 0) + BackendCalls(steps[1..])
  }

  predicate SomeRowLeft(checks: seq<Check>) {
    exists i :: 0 <= i < |checks| && checks[i].preflight == None
  }

  /** The batches counter counts exactly those. */
  lemma {:induction false} BatchesCounted(cfg: Config, s: State, steps: seq<Step>, t: State)
    requires Run(cfg, s, steps, t)
    ensures t.batches == s.batches + BackendCalls(steps)
    decreases |steps|
  {
    if steps != [] {
      if steps[0].Preflight? { ScreenEmpty(s.ledger, s.workers[steps[0].w].batch, steps[0].checks); }
      BatchesCounted(cfg, Next(cfg, s, steps[0]), steps[1..], t);
    }
  }

  lemma {:induction false} ScreenEmpty(led: Ledger, batch: seq<Job>, checks: seq<Check>)
    requires |batch| == |checks|
    ensures Screen(led, batch, checks).1 != [] <==> SomeRowLeft(checks)
    decreases |batch|
  {
    if batch != [] && checks[0].preflight.Some? {
      ScreenEmpty(Finish(led, batch[0].id, Failure(checks[0].preflight.value), checks[0].late), batch[1..],
        checks[1..]);
      if i :| 0 <= i < |checks| && checks[i].preflight == None { assert checks[1..][i - 1].preflight == None; }
    }
  }

  /** Same-bucket jobs leave in the order they arrived: a younger one is never taken
      before an older one, and inside a batch the older one comes first. */
  lemma SameBucketFifo(cfg: Config, queue: seq<Job>, older: nat, younger: nat)
    requires ValidConfig(cfg) && older < younger < |queue| && Distinct(queue)
    requires Bucket(cfg, queue[older]) == Bucket(cfg, queue[younger])
    requires queue[younger] in Dequeue(cfg, queue).0
    ensures exists i, j :: 0 <= i < j < |Dequeue(cfg, queue).0|
              && Dequeue(cfg, queue).0[i] == queue[older] && Dequeue(cfg, queue).0[j] == queue[younger]
  {
    var key := Bucket(cfg, queue[0]);
    var taken := Dequeue(cfg, queue).0;
    SplitParts(cfg, queue, key, cfg.maxBatch);
    SplitPlace(cfg, queue, key, cfg.maxBatch, younger);
    SplitPlace(cfg, queue, key, cfg.maxBatch, older);
    TakenGrows(cfg, queue, key, cfg.maxBatch, older, younger);
    var i := TakenBefore(cfg, queue, key, cfg.maxBatch, older);
    var j := TakenBefore(cfg, queue, key, cfg.maxBatch, younger);
    // a job that is taken is not also kept
    assert queue[younger].id in Ids(taken);
    assert queue[younger] !in Dequeue(cfg, queue).1;
    assert taken[i] == queue[older] && taken[j] == queue[younger];
  }

  /** A dequeue serves the front and moves everything it leaves behind strictly forward. */
  lemma DequeueAdvances(cfg: Config, queue: seq<Job>, p: nat)
    requires ValidConfig(cfg) && p < |queue|
    ensures queue[p] in Dequeue(cfg, queue).0
         || (p > 0 && exists q: nat :: q < p && q < |Dequeue(cfg, queue).1| && Dequeue(cfg, queue).1[q] == queue[p])
  {
    var key := Bucket(cfg, queue[0]);
    SplitPlace(cfg, queue, key, cfg.maxBatch, p);
    SplitPlace(cfg, queue, key, cfg.maxBatch, 0);
    TakenGrows(cfg, queue, key, cfg.maxBatch, 0, p);
    var n := TakenBefore(cfg, queue, key, cfg.maxBatch, p);
    assert queue[..0] == [];
    if queue[p] !in Dequeue(cfg, queue).0 {
      assert Dequeue(cfg, queue).1[p - n] == queue[p];
    }
  }

  /** Dequeues in a run: a take that finds the queue empty serves nobody and is not counted. */
  ghost function Dequeues(cfg: Config, s: State, steps: seq<Step>): nat
    decreases |steps|
  {
    if steps == [] || !Enabled(cfg, s, steps[0]) then 0
    else (if steps[0].Take? && s.queue != [] then 1 else 0) + Dequeues(cfg, Next(cfg, s, steps[0]), steps[1..])
  }

  lemma GoneForGood(cfg: Config, s: State, step: Step, id: nat)
    requires Inv(cfg, s) && Enabled(cfg, s, step) && id < s.accepted && id !in Ids(s.queue)
    ensures id < Next(cfg, s, step).accepted && id !in Ids(Next(cfg, s, step).queue)
  {
    match step
    case Submit(requests) =>
      JobIds(s.accepted, requests);
      IdsOfParts(s.queue, Jobs(s.accepted, requests));
    case SubmitCallback(request) =>
      IdsOfParts(s.queue, [Job(s.accepted, request)]);
    case Take(w) =>
      if s.queue != [] { SplitParts(cfg, s.queue, Bucket(cfg, s.queue[0]), cfg.maxBatch); }
    case _ =>
  }

  lemma {:induction false} StaysGone(cfg: Config, s: State, steps: seq<Step>, t: State, id: nat)
    requires Inv(cfg, s) && Run(cfg, s, steps, t) && id < s.accepted && id !in Ids(s.queue)
    ensures id !in Ids(t.queue)
    decreases |steps|
  {
    if steps != [] {
      StepKeeps(cfg, s, steps[0]);
      GoneForGood(cfg, s, steps[0], id);
      StaysGone(cfg, Next(cfg, s, steps[0]), steps[1..], t, id);
    }
  }

  /** No starvation: whatever else arrives and whichever workers serve, the job at position p
      has left the queue after p + 1 dequeues. */
  lemma {:induction false} NoStarvation(cfg: Config, s: State, steps: seq<Step>, t: State, p: nat)
    requires ValidConfig(cfg) && Inv(cfg, s) && Run(cfg, s, steps, t)
    requires p < |s.queue| && Dequeues(cfg, s, steps) > p
    ensures s.queue[p].id !in Ids(t.queue)
    decreases |steps|
  {
    var u := Next(cfg, s, steps[0]);
    var job := s.queue[p];
    StepKeeps(cfg, s, steps[0]);
    if steps[0].Take? {
      DequeueAdvances(cfg, s.queue, p);
      var (taken, kept) := Dequeue(cfg, s.queue);
      if job in taken {
        SplitParts(cfg, s.queue, Bucket(cfg, s.queue[0]), cfg.maxBatch);
        assert job.id in Ids(taken) && job.id !in Ids(kept);
        StaysGone(cfg, u, steps[1..], t, job.id);
      } else {
        var q: nat :| q < p && q < |kept| && kept[q] == job;
        NoStarvation(cfg, u, steps[1..], t, q);
      }
    } else {
      assert u.queue[p] == job;
      NoStarvation(cfg, u, steps[1..], t, p);
    }
  }

  // ------------------------------------------------------- answers in row order

  /** What predict_batch makes of its futures: the first failure in caller order, or all responses. */
  datatype Batch = Responses(rows: seq<string>) | FirstFailure(error: ErrorCode)

  function Gather(replies: seq<Reply>): Batch {
    if replies == [] then Responses([])
    else
      match replies[0]
      case Failure(e) => FirstFailure(e)
      case Success(r) =>
        match Gather(replies[1..])
        case FirstFailure(e) => FirstFailure(e)
        case Responses(rows) => Responses([r] + rows)
  }

  /** In this step a backend returns this response for the row of this job: as many responses as it was handed
      rows, and this one in the row's own place. Nothing is assumed of the backend. Expiry is what the test made
      after the call says about the row. */
  ghost predicate AnsweredIn(s: State, step: Step, job: Job, response: string, expiry: Option<ErrorCode>) {
    match step
    case Answer(w, Replied(responses), late) =>
      && w < |s.workers| && s.workers[w].Calling? && |responses| == |s.workers[w].active| == |late|
      && exists i :: 0 <= i < |responses|
                     && s.workers[w].active[i] == job && responses[i] == response && late[i] == expiry
    case _ => false
  }

  ghost predicate Answered(cfg: Config, s: State, steps: seq<Step>, job: Job, response: string,
    expiry: Option<ErrorCode>)
    decreases |steps|
  {
    && steps != [] && Enabled(cfg, s, steps[0])
    && (AnsweredIn(s, steps[0], job, response, expiry)
        || Answered(cfg, Next(cfg, s, steps[0]), steps[1..], job, response, expiry))
  }

  /** What finishing a list of jobs appends: for some job of the list, its own reply or its expiry. */
  lemma {:induction false} FinishAllSource(led: Ledger, jobs: seq<Job>, replies: seq<Reply>,
      late: seq<Option<ErrorCode>>, i: nat) returns (k: nat)
    requires |jobs| == |replies| == |late| && |led.log| <= i < |FinishAll(led, jobs, replies, late).log|
    ensures k < |jobs|
    ensures FinishAll(led, jobs, replies, late).log[i] == Delivery(jobs[k].id, Late(replies[k], late[k]))
    decreases |jobs|
  {
    var next := Finish(led, jobs[0].id, replies[0], late[0]);
    if |led.log| == i < |next.log| {
      FinishAllAppends(next, jobs[1..], replies[1..], late[1..]);
      k := 0;
    } else {
      k := FinishAllSource(next, jobs[1..], replies[1..], late[1..], i);
      k := k + 1;
    }
  }

  lemma {:induction false} FinishAllAppends(led: Ledger, jobs: seq<Job>, replies: seq<Reply>,
    late: seq<Option<ErrorCode>>)
    requires |jobs| == |replies| == |late|
    ensures led.log <= FinishAll(led, jobs, replies, late).log
    decreases |jobs|
  {
    if jobs != [] {
      FinishAllAppends(Finish(led, jobs[0].id, replies[0], late[0]), jobs[1..], replies[1..], late[1..]);
    }
  }

  lemma {:induction false} ScreenFails(led: Ledger, batch: seq<Job>, checks: seq<Check>)
    requires |batch| == |checks|
    ensures var after := Screen(led, batch, checks).0;
            led.log <= after.log && forall i :: |led.log| <= i < |after.log| ==> after.log[i].reply.Failure?
    decreases |batch|
  {
    if batch != [] {
      if checks[0].preflight.Some? {
        var next := Finish(led, batch[0].id, Failure(checks[0].preflight.value), checks[0].late);
        ScreenFails(next, batch[1..], checks[1..]);
      } else {
        ScreenFails(led, batch[1..], checks[1..]);
      }
    }
  }

  lemma StepAligned(cfg: Config, s: State, step: Step, i: nat)
    requires Inv(cfg, s) && Enabled(cfg, s, step)
    requires var log := Next(cfg, s, step).ledger.log; |s.ledger.log| <= i < |log| && log[i].reply.Success?
    ensures var d := Next(cfg, s, step).ledger.log[i];
            d.id < |s.admitted| && AnsweredIn(s, step, Job(d.id, s.admitted[d.id]), d.reply.response, None)
  {
    match step
    case Preflight(w, checks) => ScreenFails(s.ledger, s.workers[w].batch, checks);
    case Answer(w, outcome, late) =>
      var worker := s.workers[w];
      assert StageOk(worker, s.ledger.finished);
      assert Held(worker) == worker.batch && Known(s, worker.batch);
      var targets := Targets(worker, outcome);
      var k := FinishAllSource(s.ledger, targets, Replies(|targets|, outcome), late, i);
      assert targets[k] in worker.batch;
      assert worker.active[k] == targets[k];
    case _ =>
  }

  /** Alignment, over every run and with an arbitrary backend: each successful completion carries the response the
      backend returned for that row, shown to it as the request the row was admitted with, and the row had not expired
      when that was delivered. */
  lemma {:induction false} RunAligned(cfg: Config, s: State, steps: seq<Step>, t: State, i: nat)
    requires Inv(cfg, s) && Run(cfg, s, steps, t)
    requires |s.ledger.log| <= i < |t.ledger.log| && t.ledger.log[i].reply.Success?
    ensures var d := t.ledger.log[i];
            d.id < |t.admitted| && Answered(cfg, s, steps, Job(d.id, t.admitted[d.id]), d.reply.response, None)
    decreases |steps|
  {
    var u := Next(cfg, s, steps[0]);
    StepKeeps(cfg, s, steps[0]);
    RunGrows(cfg, u, steps[1..], t);
    if i < |u.ledger.log| {
      StepAligned(cfg, s, steps[0], i);
      StepGrows(cfg, s, steps[0]);
    } else {
      RunAligned(cfg, u, steps[1..], t, i);
    }
  }

  lemma AnswerFinishes(cfg: Config, s: State, step: Step, job: Job, response: string, expiry: Option<ErrorCode>)
    requires Inv(cfg, s) && Enabled(cfg, s, step) && AnsweredIn(s, step, job, response, expiry)
    ensures job.id !in s.ledger.finished && job.id in Next(cfg, s, step).ledger.finished
  {
    var worker := s.workers[step.w];
    assert StageOk(worker, s.ledger.finished) && job in worker.active && job.id in Ids(worker.active);
    var targets := Targets(worker, step.outcome);
    FinishAllOnce(s.ledger, targets, Replies(|targets|, step.outcome), step.late);
  }

  lemma {:induction false} FinishedUnanswered(cfg: Config, s: State, steps: seq<Step>, job: Job, response: string,
      expiry: Option<ErrorCode>)
    requires Inv(cfg, s) && job.id in s.ledger.finished
    ensures !Answered(cfg, s, steps, job, response, expiry)
    decreases |steps|
  {
    if steps != [] && Enabled(cfg, s, steps[0]) {
      if AnsweredIn(s, steps[0], job, response, expiry) { AnswerFinishes(cfg, s, steps[0], job, response, expiry); }
      StepKeeps(cfg, s, steps[0]);
      StepGrows(cfg, s, steps[0]);
      FinishedUnanswered(cfg, Next(cfg, s, steps[0]), steps[1..], job, response, expiry);
    }
  }

  lemma OneAnswerEach(cfg: Config, s: State, step: Step, job: Job, a: string, p: Option<ErrorCode>,
      other: Job, b: string, q: Option<ErrorCode>)
    requires Inv(cfg, s) && job.id == other.id && AnsweredIn(s, step, job, a, p) && AnsweredIn(s, step, other, b, q)
    ensures job == other && a == b && p == q
  {
    var active := s.workers[step.w].active;
    assert StageOk(s.workers[step.w], s.ledger.finished) && Distinct(active);
    var i :| 0 <= i < |active| && active[i] == job && step.outcome.responses[i] == a && step.late[i] == p;
    var j :| 0 <= j < |active| && active[j] == other && step.outcome.responses[j] == b && step.late[j] == q;
    assert i == j;
  }

  /** In one run a row is answered by the backend at most once. */
  lemma {:induction false} AnsweredOnce(cfg: Config, s: State, steps: seq<Step>, job: Job, a: string,
      p: Option<ErrorCode>, other: Job, b: string, q: Option<ErrorCode>)
    requires Inv(cfg, s) && job.id == other.id
    requires Answered(cfg, s, steps, job, a, p) && Answered(cfg, s, steps, other, b, q)
    ensures job == other && a == b && p == q
    decreases |steps|
  {
    var step, u := steps[0], Next(cfg, s, steps[0]);
    StepKeeps(cfg, s, step);
    if AnsweredIn(s, step, job, a, p) {
      AnswerFinishes(cfg, s, step, job, a, p);
      FinishedUnanswered(cfg, u, steps[1..], other, b, q);
      OneAnswerEach(cfg, s, step, job, a, p, other, b, q);
    } else if AnsweredIn(s, step, other, b, q) {
      AnswerFinishes(cfg, s, step, other, b, q);
      FinishedUnanswered(cfg, u, steps[1..], job, a, p);
    } else {
      AnsweredOnce(cfg, u, steps[1..], job, a, p, other, b, q);
    }
  }

  /** So in each run the backend, however it behaves, amounts to one function of the job. */
  lemma AnswersAreFunction(cfg: Config, s: State, steps: seq<Step>) returns (g: nat -> string)
    requires Inv(cfg, s)
    ensures forall job, response, expiry :: Answered(cfg, s, steps, job, response, expiry) ==> response == g(job.id)
  {
    g := (id: nat) =>
      if exists job, r, p :: Answered(cfg, s, steps, job, r, p) && job.id == id
      then var job, r, p :| Answered(cfg, s, steps, job, r, p) && job.id == id; r
      else "";
    forall job, response, expiry | Answered(cfg, s, steps, job, response, expiry) ensures response == g(job.id) {
      var other, r, p :| Answered(cfg, s, steps, other, r, p) && other.id == job.id && r == g(job.id);
      AnsweredOnce(cfg, s, steps, job, response, expiry, other, r, p);
    }
  }

  /** Conversely an answered row is told the response, or its expiry when it was too late. With RunAligned: over
      every run a row succeeds exactly when the backend answered it before it expired. */
  lemma {:induction false} RunAnswers(cfg: Config, s: State, steps: seq<Step>, t: State, job: Job, response: string,
      expiry: Option<ErrorCode>)
    requires Inv(cfg, s) && Run(cfg, s, steps, t) && Answered(cfg, s, steps, job, response, expiry)
    ensures IsReply(t, job.id, if expiry.Some? then Failure(expiry.value) else Success(response))
    decreases |steps|
  {
    var u := Next(cfg, s, steps[0]);
    StepKeeps(cfg, s, steps[0]);
    if AnsweredIn(s, steps[0], job, response, expiry) {
      var active := s.workers[steps[0].w].active;
      var i :| 0 <= i < |active| && active[i] == job && steps[0].outcome.responses[i] == response
               && steps[0].late[i] == expiry;
      StepTells(cfg, s, steps[0], i);
      RunGrows(cfg, u, steps[1..], t);
    } else {
      RunAnswers(cfg, u, steps[1..], t, job, response, expiry);
    }
  }

  lemma StepTells(cfg: Config, s: State, step: Step, i: nat)
    requires Inv(cfg, s) && Enabled(cfg, s, step) && step.Answer? && step.outcome.Replied?
    requires i < |s.workers[step.w].active| == |step.outcome.responses|
    ensures var reply := if step.late[i].Some? then Failure(step.late[i].value) else Success(step.outcome.responses[i]);
            IsReply(Next(cfg, s, step), s.workers[step.w].active[i].id, reply)
  {
    assert StageOk(s.workers[step.w], s.ledger.finished);
    assert s.workers[step.w].active[i].id in Ids(s.workers[step.w].active);
    AnswerDelivers(cfg, s, step.w, step.outcome, step.late, i);
  }

  ghost predicate IsReply(s: State, id: nat, reply: Reply) {
    exists i :: 0 <= i < |s.ledger.log| && s.ledger.log[i] == Delivery(id, reply)
  }

  /** What the futures of one predict_batch call hold: for a refused call the admission error in every row, for an
      admitted one what the run delivered to its rows. */
  ghost predicate Told(cfg: Config, s: State, requests: seq<Request>, t: State, replies: seq<Reply>) {
    && |replies| == |requests|
    && forall i :: 0 <= i < |replies| ==>
         if Refuses(cfg, s, |requests|) then replies[i] == Failure(if s.stopping then ShuttingDown else Overloaded)
         else IsReply(t, s.accepted + i, replies[i])
  }

  lemma OwnAnswer(cfg: Config, s: State, requests: seq<Request>, steps: seq<Step>, t: State, i: nat, reply: Reply)
    requires Inv(cfg, s) && !Refuses(cfg, s, |requests|) && Run(cfg, Next(cfg, s, Submit(requests)), steps, t)
    requires i < |requests| && IsReply(t, s.accepted + i, reply) && reply.Success?
    ensures Answered(cfg, Next(cfg, s, Submit(requests)), steps, Job(s.accepted + i, requests[i]), reply.response, None)
  {
    var u, id := Next(cfg, s, Submit(requests)), s.accepted + i;
    AdmitKeeps(cfg, s, requests);
    assert id !in u.ledger.finished && u.admitted[id] == requests[i];
    NewRowAnswered(cfg, u, steps, t, id, reply);
  }

  lemma NewRowAnswered(cfg: Config, u: State, steps: seq<Step>, t: State, id: nat, reply: Reply)
    requires Inv(cfg, u) && Run(cfg, u, steps, t) && IsReply(t, id, reply) && reply.Success?
    requires id < |u.admitted| && id !in u.ledger.finished
    ensures Answered(cfg, u, steps, Job(id, u.admitted[id]), reply.response, None)
  {
    RunGrows(cfg, u, steps, t);
    var k :| 0 <= k < |t.ledger.log| && t.ledger.log[k] == Delivery(id, reply);
    assert forall j :: 0 <= j < |u.ledger.log| ==> u.ledger.log[j].id in u.ledger.finished;
    RunAligned(cfg, u, steps, t, k);
  }

  /** predict_batch, over plain runs and with an arbitrary backend. The rows of one admitted call may be bucketed
      apart and served in any order by any workers, yet what is gathered is, in caller order, what the backend
      returned for each row, unless some row failed, and then it is the failure of the first failing row. A refused
      call returns the admission error. */
  lemma PredictBatchInOrder(cfg: Config, s: State, requests: seq<Request>, steps: seq<Step>, t: State,
    replies: seq<Reply>)
    requires Inv(cfg, s) && Run(cfg, Next(cfg, s, Submit(requests)), steps, t) && Told(cfg, s, requests, t, replies)
    ensures (s.stopping || |s.queue| + |requests| > cfg.capacity) && requests != [] ==>
              Gather(replies) == FirstFailure(if s.stopping then ShuttingDown else Overloaded)
    ensures !s.stopping && |s.queue| + |requests| <= cfg.capacity ==>
              var u := Next(cfg, s, Submit(requests));
              match Gather(replies)
              case Responses(rows) =>
                && |rows| == |requests|
                && forall i :: 0 <= i < |rows| ==>
                  Answered(cfg, u, steps, Job(s.accepted + i, requests[i]), rows[i], None)
              case FirstFailure(e) =>
                exists i :: 0 <= i < |replies| && replies[i] == Failure(e)
                  && (forall j :: 0 <= j < i ==>
                        && replies[j].Success?
                        && Answered(cfg, u, steps, Job(s.accepted + j, requests[j]), replies[j].response, None))
  {
    GatherInOrder(replies);
    if !Refuses(cfg, s, |requests|) {
      forall i | 0 <= i < |replies| && replies[i].Success?
        ensures Answered(cfg, Next(cfg, s, Submit(requests)), steps, Job(s.accepted + i, requests[i]),
            replies[i].response, None)
      {
        OwnAnswer(cfg, s, requests, steps, t, i, replies[i]);
      }
    }
  }

  /** Gathering keeps caller order and reports the first failure exactly when there is one. */
  lemma {:induction false} GatherInOrder(replies: seq<Reply>)
    ensures match Gather(replies)
            case Responses(rows) =>
              |rows| == |replies| && forall i :: 0 <= i < |rows| ==> replies[i] == Success(rows[i])
            case FirstFailure(e) => exists i :: 0 <= i < |replies| && replies[i] == Failure(e)
                                      && forall j :: 0 <= j < i ==> replies[j].Success?
  {
    if replies != [] && replies[0].Success? {
      GatherInOrder(replies[1..]);
      if Gather(replies[1..]).FirstFailure? {
        var e := Gather(replies[1..]).error;
        var i :| 0 <= i < |replies[1..]| && replies[1..][i] == Failure(e)
                 && forall j :: 0 <= j < i ==> replies[1..][j].Success?;
        assert replies[i + 1] == Failure(e);
        forall j | 0 <= j < i + 1 ensures replies[j].Success? {
          if j > 0 { assert replies[1..][j - 1].Success?; }
        }
      }
    }
  }

  /** A backend that answers every row it answers in time by f of its request. */
  ghost predicate Pure(cfg: Config, f: Request -> string, s: State, steps: seq<Step>)
    decreases |steps|
  {
    steps != [] && Enabled(cfg, s, steps[0]) ==>
      && (forall job, response :: AnsweredIn(s, steps[0], job, response, None) ==> response == f(job.request))
      && Pure(cfg, f, Next(cfg, s, steps[0]), steps[1..])
  }

  lemma {:induction false} PureAnswer(cfg: Config, f: Request -> string, s: State, steps: seq<Step>, job: Job,
    response: string)
    requires Pure(cfg, f, s, steps) && Answered(cfg, s, steps, job, response, None)
    ensures response == f(job.request)
    decreases |steps|
  {
    if !AnsweredIn(s, steps[0], job, response, None) {
      PureAnswer(cfg, f, Next(cfg, s, steps[0]), steps[1..], job, response);
    }
  }

  /** With such a backend predict_batch returns f of each request in caller order, when it returns responses. */
  lemma PureBatchInOrder(cfg: Config, f: Request -> string, s: State, requests: seq<Request>,
      steps: seq<Step>, t: State, replies: seq<Reply>)
    requires Inv(cfg, s) && Run(cfg, Next(cfg, s, Submit(requests)), steps, t) && Told(cfg, s, requests, t, replies)
    requires Pure(cfg, f, Next(cfg, s, Submit(requests)), steps)
    ensures Gather(replies).Responses? ==>
              |Gather(replies).rows| == |requests|
              && forall i :: 0 <= i < |requests| ==> Gather(replies).rows[i] == f(requests[i])
  {
    PredictBatchInOrder(cfg, s, requests, steps, t, replies);
    if Gather(replies).Responses? && requests != [] {
      var u, rows := Next(cfg, s, Submit(requests)), Gather(replies).rows;
      forall i | 0 <= i < |requests| ensures rows[i] == f(requests[i]) {
        PureAnswer(cfg, f, u, steps, Job(s.accepted + i, requests[i]), rows[i]);
      }
    }
  }

  // ------------------------------------------------------- what each row is told

  /** Between two ledgers the row got its one completion, and it is this reply. */
  ghost predicate Delivered(before: Ledger, after: Ledger, id: nat, reply: Reply) {
    && before.log <= after.log && Completions(after.log, id) == 1
    && exists i :: |before.log| <= i < |after.log| && after.log[i] == Delivery(id, reply)
  }

  lemma DeliveredOnce(before: Ledger, after: Ledger, id: nat, reply: Reply)
    requires Once(after) && before.log <= after.log
    requires exists i :: |before.log| <= i < |after.log| && after.log[i] == Delivery(id, reply)
    ensures Delivered(before, after, id, reply)
  {
    CountDistinct(after.log, id);
  }

  lemma {:induction false} FinishAllDelivers(led: Ledger, jobs: seq<Job>, replies: seq<Reply>,
      late: seq<Option<ErrorCode>>, i: nat)
    requires |jobs| == |replies| == |late| && Once(led) && i < |jobs|
    requires Distinct(jobs) && jobs[i].id !in led.finished
    ensures Delivered(led, FinishAll(led, jobs, replies, late), jobs[i].id,
                      if late[i].Some? then Failure(late[i].value) else replies[i])
    decreases |jobs|
  {
    var reply := if late[i].Some? then Failure(late[i].value) else replies[i];
    var next := Finish(led, jobs[0].id, replies[0], late[0]);
    FinishOnce(led, jobs[0].id, replies[0], late[0]);
    FinishAllOnce(next, jobs[1..], replies[1..], late[1..]);
    var last := FinishAll(next, jobs[1..], replies[1..], late[1..]);
    if i == 0 {
      assert next.log[|led.log|] == Delivery(jobs[0].id, reply);
      assert last.log[|led.log|] == next.log[|led.log|];
    } else {
      assert jobs[i].id !in next.finished;
      FinishAllDelivers(next, jobs[1..], replies[1..], late[1..], i - 1);
      var k :| |next.log| <= k < |last.log| && last.log[k] == Delivery(jobs[i].id, reply);
      assert |led.log| <= k;
    }
    DeliveredOnce(led, last, jobs[i].id, reply);
  }

  /** What the backend call finishes: the rows it was shown, or after an exception the whole batch. Each row that is
      not finished yet is told the error its expiry test gives, or else its own response, or else the one failure
      the outcome stands for. */
  lemma AnswerDelivers(cfg: Config, s: State, w: nat, outcome: Outcome, late: seq<Option<ErrorCode>>, k: nat)
    requires Inv(cfg, s) && Enabled(cfg, s, Answer(w, outcome, late))
    requires var worker := s.workers[w];
             var rows := if outcome.Threw? && worker.active != [] then worker.batch else worker.active;
             k < |rows| && rows[k].id !in s.ledger.finished
    ensures var worker := s.workers[w];
            var rows := if outcome.Threw? && worker.active != [] then worker.batch else worker.active;
            var reply :=
              match outcome
              case Failed(e) => Failure(e)
              case Threw => Failure(BackendFailure)
              case Replied(responses) =>
                if |responses| == |rows| then Success(responses[k]) else Failure(InvalidBackendOutput);
            && |late| == |rows|
            && Delivered(s.ledger, Next(cfg, s, Answer(w, outcome, late)).ledger, rows[k].id,
                         if late[k].Some? then Failure(late[k].value) else reply)
  {
    var worker := s.workers[w];
    assert StageOk(worker, s.ledger.finished);
    assert Held(worker) == worker.batch && Distinct(worker.batch);
    var targets := Targets(worker, outcome);
    FinishAllDelivers(s.ledger, targets, Replies(|targets|, outcome), late, k);
  }

  /** Preflight completes exactly the rows already expired, each with its own expiry error, of the two tests the one
      made last, and hands the others on in order. */
  lemma {:induction false} ScreenDelivers(led: Ledger, batch: seq<Job>, checks: seq<Check>, i: nat)
    requires |batch| == |checks| && Once(led) && Distinct(batch) && Ids(batch) !! led.finished && i < |batch|
    ensures var (after, active) := Screen(led, batch, checks);
            match checks[i]
            case Check(Some(_), Some(later)) => Delivered(led, after, batch[i].id, Failure(later))
            case Check(Some(e), None) => Delivered(led, after, batch[i].id, Failure(e))
            case Check(None, _) => batch[i] in active && batch[i].id !in after.finished
    decreases |batch|
  {
    var rest := batch[1..];
    assert batch == [batch[0]] + rest;
    IdsOfParts([batch[0]], rest);
    assert batch[0].id !in Ids(rest);
    ScreenOnce(led, batch, checks);
    if checks[0].preflight.Some? {
      var next := Finish(led, batch[0].id, Failure(checks[0].preflight.value), checks[0].late);
      FinishOnce(led, batch[0].id, Failure(checks[0].preflight.value), checks[0].late);
      ScreenOnce(next, rest, checks[1..]);
      var after := Screen(next, rest, checks[1..]).0;
      if i == 0 {
        assert after.log[|led.log|] == next.log[|led.log|];
        DeliveredOnce(led, after, batch[0].id, Expired(checks[0]));
      } else {
        ScreenDelivers(next, rest, checks[1..], i - 1);
        if checks[i].preflight.Some? {
          var k :| |next.log| <= k < |after.log| && after.log[k] == Delivery(batch[i].id, Expired(checks[i]));
          assert |led.log| <= k;
          DeliveredOnce(led, after, batch[i].id, Expired(checks[i]));
        }
      }
    } else if i > 0 {
      ScreenDelivers(led, rest, checks[1..], i - 1);
    }
  }

  function Expired(check: Check): Reply
    requires check.preflight.Some?
  {
    Failure(if check.late.Some? then check.late.value else check.preflight.value)
  }

  /** The preflight step tells every expired row of the batch so and shows the backend the others, in order. */
  lemma PreflightDelivers(cfg: Config, s: State, w: nat, checks: seq<Check>, i: nat)
    requires Inv(cfg, s) && Enabled(cfg, s, Preflight(w, checks)) && i < |s.workers[w].batch|
    ensures var batch, t := s.workers[w].batch, Next(cfg, s, Preflight(w, checks));
            && t.workers[w].Calling? && (batch[i] in t.workers[w].active <==> checks[i].preflight.None?)
            && match checks[i]
               case Check(Some(_), Some(later)) => Delivered(s.ledger, t.ledger, batch[i].id, Failure(later))
               case Check(Some(e), None) => Delivered(s.ledger, t.ledger, batch[i].id, Failure(e))
               case Check(None, _) => batch[i].id !in t.ledger.finished
  {
    var batch := s.workers[w].batch;
    assert StageOk(s.workers[w], s.ledger.finished) && Held(s.workers[w]) == batch;
    ScreenOnce(s.ledger, batch, checks);
    ScreenDelivers(s.ledger, batch, checks, i);
    var active := Screen(s.ledger, batch, checks).1;
    if batch[i] in active { assert batch[i].id in Ids(active); }
    if checks[i].preflight.Some? { ScreenFinishes(s.ledger, batch, checks, i); }
  }

  lemma {:induction false} ScreenFinishes(led: Ledger, batch: seq<Job>, checks: seq<Check>, i: nat)
    requires |batch| == |checks| && Once(led) && Distinct(batch) && Ids(batch) !! led.finished && i < |batch|
    requires checks[i].preflight.Some?
    ensures batch[i].id in Screen(led, batch, checks).0.finished
  {
    ScreenDelivers(led, batch, checks, i);
    ScreenOnce(led, batch, checks);
    var after := Screen(led, batch, checks).0;
    var k :| |led.log| <= k < |after.log| && after.log[k] == Delivery(batch[i].id, Expired(checks[i]));
  }

  /** The rows shown to the backend keep the order they have in the batch. */
  lemma {:induction false} ScreenInOrder(led: Ledger, batch: seq<Job>, checks: seq<Check>, i: nat, j: nat)
      returns (p: nat, q: nat)
    requires |batch| == |checks| && i < j < |batch| && checks[i].preflight.None? && checks[j].preflight.None?
    ensures p < q < |Screen(led, batch, checks).1|
    ensures Screen(led, batch, checks).1[p] == batch[i] && Screen(led, batch, checks).1[q] == batch[j]
    decreases |batch|
  {
    if checks[0].preflight.Some? {
      p, q := ScreenInOrder(Finish(led, batch[0].id, Failure(checks[0].preflight.value), checks[0].late),
                            batch[1..], checks[1..], i - 1, j - 1);
    } else if i == 0 {
      q := ScreenPosition(led, batch[1..], checks[1..], j - 1);
      p, q := 0, q + 1;
    } else {
      p, q := ScreenInOrder(led, batch[1..], checks[1..], i - 1, j - 1);
      p, q := p + 1, q + 1;
    }
  }

  lemma {:induction false} ScreenPosition(led: Ledger, batch: seq<Job>, checks: seq<Check>, i: nat) returns (p: nat)
    requires |batch| == |checks| && i < |batch| && checks[i].preflight.None?
    ensures p < |Screen(led, batch, checks).1| && Screen(led, batch, checks).1[p] == batch[i]
    decreases |batch|
  {
    if checks[0].preflight.Some? {
      p := ScreenPosition(Finish(led, batch[0].id, Failure(checks[0].preflight.value), checks[0].late),
                          batch[1..], checks[1..], i - 1);
    } else if i == 0 {
      p := 0;
    } else {
      p := ScreenPosition(led, batch[1..], checks[1..], i - 1);
      p := p + 1;
    }
  }
}
