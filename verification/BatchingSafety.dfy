/** What every run of the batching executor keeps: rows are conserved, nothing is finished
    twice, every finished row was answered for itself, and admission is all or nothing. */
module BatchingSafety {
  import opened Batching
  import opened Wrappers

  // ------------------------------------------------------------- the invariant

  function Ids(jobs: seq<Job>): set<nat> {
    set job | job in jobs :: job.id
  }

  ghost predicate Distinct(jobs: seq<Job>) {
    forall i, j :: 0 <= i < j < |jobs| ==> jobs[i].id != jobs[j].id
  }

  ghost predicate Known(s: State, jobs: seq<Job>) {
    forall job :: job in jobs ==> job.id < |s.admitted| && s.admitted[job.id] == job.request
  }

  /** Every live job is in exactly one place, under its own request. */
  ghost predicate Owned(s: State) {
    && |s.admitted| == s.accepted
    && Distinct(s.queue) && Known(s, s.queue)
    && (forall w :: 0 <= w < |s.workers| ==>
          Distinct(Held(s.workers[w])) && Known(s, Held(s.workers[w])) && Ids(Held(s.workers[w])) !! Ids(s.queue))
    && (forall v, w :: 0 <= v < |s.workers| && 0 <= w < |s.workers| && v != w ==>
          Ids(Held(s.workers[v])) !! Ids(Held(s.workers[w])))
  }

  function SumHeld(workers: seq<Worker>): nat {
    if workers == [] then 0 else |Held(workers[0])| + SumHeld(workers[1..])
  }

  /** The counters of batching_stats agree with the queue and with the batches the workers hold. */
  ghost predicate Accounted(cfg: Config, s: State) {
    && |s.queue| <= cfg.capacity
    && s.inFlight == SumHeld(s.workers)
    && s.accepted == |s.queue| + s.inFlight + s.completed
    && (forall w :: 0 <= w < |s.workers| ==>
          |Held(s.workers[w])| <= cfg.maxBatch && (s.workers[w].Exited? ==> s.stopping && s.queue == []))
  }

  ghost predicate Once(led: Ledger) {
    && (forall i, j :: 0 <= i < j < |led.log| ==> led.log[i].id != led.log[j].id)
    && (forall id :: id in led.finished <==> exists i :: 0 <= i < |led.log| && led.log[i].id == id)
  }

  ghost predicate StageOk(worker: Worker, finished: set<nat>) {
    match worker
    case Holding(batch) => Ids(batch) !! finished
    case Calling(batch, active) =>
      && Distinct(active) && Ids(active) !! finished
      && Ids(batch) - finished == Ids(active)
      && (forall job :: job in active ==> job in batch)
    case Settled(batch) => Ids(batch) <= finished
    case _ => true
  }

  ghost predicate Live(s: State, id: nat) {
    id in Ids(s.queue) || exists w :: 0 <= w < |s.workers| && id in Ids(Held(s.workers[w]))
  }

  ghost predicate Completing(s: State) {
    && Once(s.ledger)
    && (forall id :: id in s.ledger.finished ==> id < s.accepted)
    && Ids(s.queue) !! s.ledger.finished
    && (forall w :: 0 <= w < |s.workers| ==> StageOk(s.workers[w], s.ledger.finished))
    && (forall id: nat :: id < s.accepted && id !in s.ledger.finished ==> Live(s, id))
  }

  ghost predicate Inv(cfg: Config, s: State) {
    Owned(s) && Accounted(cfg, s) && Completing(s)
  }

  // ------------------------------------------------------------------- helpers

  lemma {:induction false} SumHeldUpdate(workers: seq<Worker>, w: nat, worker: Worker)
    requires w < |workers|
    ensures SumHeld(workers[w := worker]) == SumHeld(workers) - |Held(workers[w])| + |Held(worker)|
  {
    if w == 0 {
      assert workers[0 := worker][1..] == workers[1..];
    } else {
      assert workers[w := worker][1..] == workers[1..][w - 1 := worker];
      SumHeldUpdate(workers[1..], w - 1, worker);
    }
  }

  lemma IdsOfParts(a: seq<Job>, b: seq<Job>)
    ensures Ids(a + b) == Ids(a) + Ids(b)
  {
  }

  /** Splitting loses nothing, invents nothing and takes only the chosen bucket. */
  lemma {:induction false} SplitParts(cfg: Config, queue: seq<Job>, key: nat, room: nat)
    ensures var (taken, kept) := Split(cfg, queue, key, room);
            && |taken| + |kept| == |queue| && |taken| <= room
            && Ids(taken) + Ids(kept) == Ids(queue)
            && (forall job :: job in queue <==> job in taken || job in kept)
            && (forall job :: job in taken ==> Bucket(cfg, job) == key)
            && (Distinct(queue) ==> Distinct(taken) && Distinct(kept) && Ids(taken) !! Ids(kept))
  {
    if queue != [] {
      var rest := queue[1..];
      assert queue == [queue[0]] + rest;
      IdsOfParts([queue[0]], rest);
      var takes := room > 0 && Bucket(cfg, queue[0]) == key;
      SplitParts(cfg, rest, key, if takes then room - 1 else room);
      var (t, k) := Split(cfg, rest, key, if takes then room - 1 else room);
      IdsOfParts([queue[0]], t);
      IdsOfParts([queue[0]], k);
      if Distinct(queue) {
        assert Distinct(rest);
        assert queue[0].id !in Ids(rest);
      }
    }
  }

  // --------------------------------------------------------------- the ledger

  lemma FinishOnce(led: Ledger, id: nat, reply: Reply, late: Option<ErrorCode>)
    requires Once(led)
    ensures Once(Finish(led, id, reply, late))
    ensures Finish(led, id, reply, late).finished == led.finished + {id}
    ensures led.log <= Finish(led, id, reply, late).log
  {
    var after := Finish(led, id, reply, late);
    if id !in led.finished {
      assert after.log[|led.log|].id == id;
      forall other ensures other in after.finished <==> exists i :: 0 <= i < |after.log| && after.log[i].id == other {
        if other in led.finished {
          var i :| 0 <= i < |led.log| && led.log[i].id == other;
          assert after.log[i].id == other;
        }
      }
    }
  }

  lemma {:induction false} FinishAllOnce(led: Ledger, jobs: seq<Job>, replies: seq<Reply>, late: seq<Option<ErrorCode>>)
    requires |jobs| == |replies| == |late| && Once(led)
    ensures Once(FinishAll(led, jobs, replies, late))
    ensures FinishAll(led, jobs, replies, late).finished == led.finished + Ids(jobs)
    ensures led.log <= FinishAll(led, jobs, replies, late).log
    decreases |jobs|
  {
    if jobs != [] {
      var next := Finish(led, jobs[0].id, replies[0], late[0]);
      FinishOnce(led, jobs[0].id, replies[0], late[0]);
      FinishAllOnce(next, jobs[1..], replies[1..], late[1..]);
      IdsOfParts([jobs[0]], jobs[1..]);
      assert jobs == [jobs[0]] + jobs[1..];
    }
  }

  lemma {:induction false} ScreenOnce(led: Ledger, batch: seq<Job>, checks: seq<Check>)
    requires |batch| == |checks| && Once(led) && Distinct(batch) && Ids(batch) !! led.finished
    ensures var (after, active) := Screen(led, batch, checks);
            && Once(after) && led.log <= after.log
            && Distinct(active) && (forall job :: job in active ==> job in batch)
            && Ids(active) <= Ids(batch)
            && after.finished == led.finished + (Ids(batch) - Ids(active))
    decreases |batch|
  {
    if batch != [] {
      var rest := batch[1..];
      assert batch == [batch[0]] + rest;
      IdsOfParts([batch[0]], rest);
      assert batch[0].id !in Ids(rest);
      if checks[0].preflight.Some? {
        var next := Finish(led, batch[0].id, Failure(checks[0].preflight.value), checks[0].late);
        FinishOnce(led, batch[0].id, Failure(checks[0].preflight.value), checks[0].late);
        ScreenOnce(next, rest, checks[1..]);
      } else {
        ScreenOnce(led, rest, checks[1..]);
        IdsOfParts([batch[0]], Screen(led, rest, checks[1..]).1);
      }
    }
  }

  // ------------------------------------------------------ one step keeps it all

  lemma InitialInv(cfg: Config, workers: nat)
    ensures Inv(cfg, Initial(workers))
  {
    NothingHeld(Initial(workers).workers);
  }

  lemma {:induction false} NothingHeld(workers: seq<Worker>)
    requires forall w :: 0 <= w < |workers| ==> Held(workers[w]) == []
    ensures SumHeld(workers) == 0
  {
    if workers != [] { NothingHeld(workers[1..]); }
  }

  lemma JobIds(first: nat, requests: seq<Request>)
    ensures forall id :: id in Ids(Jobs(first, requests)) <==> first <= id < first + |requests|
  {
    var jobs := Jobs(first, requests);
    forall id | first <= id < first + |requests| ensures id in Ids(jobs) {
      assert jobs[id - first] in jobs;
    }
  }

  lemma AdmitKeeps(cfg: Config, s: State, requests: seq<Request>)
    requires Inv(cfg, s)
    ensures Inv(cfg, Admit(cfg, s, requests))
  {
    if !Refuses(cfg, s, |requests|) {
      var t := Admit(cfg, s, requests);
      var arrivals := Jobs(s.accepted, requests);
      IdsOfParts(s.queue, arrivals);
      JobIds(s.accepted, requests);
      assert Known(t, t.queue);
      forall id: nat | id < t.accepted && id !in t.ledger.finished ensures Live(t, id) {
        if id < s.accepted { assert Live(s, id); }
      }
    }
  }

  /** Admission is all or nothing: a call that does not fit or comes after shutdown only adds its rows to rejected;
      otherwise its rows join the back of the queue in order, numbered from the next free id. */
  lemma AdmissionAtomic(cfg: Config, s: State, requests: seq<Request>)
    requires Accounted(cfg, s)
    ensures var t := Admit(cfg, s, requests);
            && t.accepted + t.rejected == s.accepted + s.rejected + |requests|
            && (t.rejected == s.rejected || t.accepted == s.accepted)
            && (s.stopping || |s.queue| + |requests| > cfg.capacity ==> t == s.(rejected := s.rejected + |requests|))
            && (!s.stopping && |s.queue| + |requests| <= cfg.capacity ==>
                  && t.rejected == s.rejected && s.queue <= t.queue && |t.queue| == |s.queue| + |requests|
                  && forall i :: 0 <= i < |requests| ==> t.queue[|s.queue| + i] == Job(s.accepted + i, requests[i]))
  {
  }

  function Rows(step: Step): nat {
    match step
    case Submit(requests) => |requests|
    case SubmitCallback(_) => 1
    case _ => 0
  }

  function Offered(steps: seq<Step>): nat {
    if steps == [] then 0 else Rows(steps[0]) + Offered(steps[1..])
  }

  /** Over every run each row offered is counted once, as accepted or as rejected. */
  lemma {:induction false} OfferedCounted(cfg: Config, s: State, steps: seq<Step>, t: State)
    requires Inv(cfg, s) && Run(cfg, s, steps, t)
    ensures t.accepted + t.rejected == s.accepted + s.rejected + Offered(steps)
    decreases |steps|
  {
    if steps != [] {
      StepKeeps(cfg, s, steps[0]);
      OfferedCounted(cfg, Next(cfg, s, steps[0]), steps[1..], t);
    }
  }

  lemma CallbackIsSingleSubmit(cfg: Config, s: State, request: Request)
    requires Accounted(cfg, s)
    ensures Next(cfg, s, SubmitCallback(request)) == Next(cfg, s, Submit([request]))
  {
    assert Jobs(s.accepted, [request]) == [Job(s.accepted, request)];
  }

  /** Rows may leave the queue for worker w; everybody else keeps what they held. */
  lemma Reowned(s: State, w: nat, t: State)
    requires Owned(s) && w < |s.workers| == |t.workers| && t.admitted == s.admitted && t.accepted == s.accepted
    requires forall v :: 0 <= v < |s.workers| && v != w ==> t.workers[v] == s.workers[v]
    requires Distinct(t.queue) && Known(s, t.queue) && Ids(t.queue) <= Ids(s.queue)
    requires var held := Held(t.workers[w]);
             Distinct(held) && Known(s, held) && Ids(held) !! Ids(t.queue)
             && Ids(held) <= Ids(s.queue) + Ids(Held(s.workers[w]))
    ensures Owned(t)
  {
  }

  /** What is still unfinished stays where Live can find it. */
  lemma StillLive(s: State, w: nat, t: State)
    requires Completing(s) && w < |s.workers| == |t.workers| && t.accepted == s.accepted
    requires s.ledger.finished <= t.ledger.finished
    requires forall v :: 0 <= v < |s.workers| && v != w ==> t.workers[v] == s.workers[v]
    requires Ids(s.queue) + Ids(Held(s.workers[w]))
             <= Ids(t.queue) + Ids(Held(t.workers[w])) + t.ledger.finished
    ensures forall id: nat :: id < t.accepted && id !in t.ledger.finished ==> Live(t, id)
  {
  }

  /** A worker moves on while holding the same jobs; the queue and the row counters stay. */
  lemma MoveKeeps(cfg: Config, s: State, w: nat, t: State)
    requires Inv(cfg, s) && w < |s.workers| == |t.workers|
    requires t.workers == s.workers[w := t.workers[w]] && Held(t.workers[w]) == Held(s.workers[w])
    requires t.queue == s.queue && t.admitted == s.admitted && t.stopping == s.stopping
    requires t.accepted == s.accepted && t.inFlight == s.inFlight && t.completed == s.completed
    requires t.workers[w].Exited? ==> s.stopping && s.queue == []
    requires Once(t.ledger) && s.ledger.finished <= t.ledger.finished
    requires t.ledger.finished - s.ledger.finished <= Ids(Held(s.workers[w]))
    requires StageOk(t.workers[w], t.ledger.finished)
    ensures Inv(cfg, t)
  {
    Reowned(s, w, t);
    SumHeldUpdate(s.workers, w, t.workers[w]);
    assert Accounted(cfg, t);
    StillLive(s, w, t);
    MoveCompleting(s, w, t);
  }

  lemma MoveCompleting(s: State, w: nat, t: State)
    requires Owned(s) && Completing(s) && w < |s.workers| == |t.workers|
    requires forall v :: 0 <= v < |s.workers| && v != w ==> t.workers[v] == s.workers[v]
    requires t.queue == s.queue && t.accepted == s.accepted
    requires Once(t.ledger) && s.ledger.finished <= t.ledger.finished
    requires t.ledger.finished - s.ledger.finished <= Ids(Held(s.workers[w]))
    requires StageOk(t.workers[w], t.ledger.finished)
    requires forall id: nat :: id < t.accepted && id !in t.ledger.finished ==> Live(t, id)
    ensures Completing(t)
  {
    forall v | 0 <= v < |t.workers| ensures StageOk(t.workers[v], t.ledger.finished) {
      if v != w { OthersUntouched(s.workers[v], s.ledger.finished, t.ledger.finished, Held(s.workers[w])); }
    }
    forall id | id in t.ledger.finished ensures id < t.accepted {
      if id !in s.ledger.finished { assert id in Ids(Held(s.workers[w])); }
    }
    assert Ids(Held(s.workers[w])) !! Ids(s.queue);
  }

  lemma OthersUntouched(worker: Worker, before: set<nat>, after: set<nat>, other: seq<Job>)
    requires StageOk(worker, before) && before <= after && after - before <= Ids(other)
    requires Ids(Held(worker)) !! Ids(other)
    ensures StageOk(worker, after)
  {
  }

  lemma TakeKeeps(cfg: Config, s: State, w: nat)
    requires Inv(cfg, s) && Enabled(cfg, s, Take(w))
    ensures Inv(cfg, Next(cfg, s, Take(w)))
  {
    var t := Next(cfg, s, Take(w));
    if s.queue == [] {
      MoveKeeps(cfg, s, w, t);
    } else {
      var (taken, kept) := Dequeue(cfg, s.queue);
      SplitParts(cfg, s.queue, Bucket(cfg, s.queue[0]), cfg.maxBatch);
      BatchTaken(cfg, s, w, t, taken, kept);
    }
  }

  lemma BatchTaken(cfg: Config, s: State, w: nat, t: State, taken: seq<Job>, kept: seq<Job>)
    requires Inv(cfg, s) && w < |s.workers| && s.workers[w].Anchored?
    requires t == SetWorker(s, w, Holding(taken)).(queue := kept, inFlight := s.inFlight + |taken|)
    requires |taken| + |kept| == |s.queue| && |taken| <= cfg.maxBatch && Ids(taken) + Ids(kept) == Ids(s.queue)
    requires forall job :: job in s.queue <==> job in taken || job in kept
    requires Distinct(taken) && Distinct(kept) && Ids(taken) !! Ids(kept)
    ensures Inv(cfg, t)
  {
    Reowned(s, w, t);
    SumHeldUpdate(s.workers, w, t.workers[w]);
    assert Accounted(cfg, t);
    StillLive(s, w, t);
    assert Completing(t);
  }

  lemma ReleaseKeeps(cfg: Config, s: State, w: nat)
    requires Inv(cfg, s) && Enabled(cfg, s, Release(w))
    ensures Inv(cfg, Next(cfg, s, Release(w)))
  {
    var t := Next(cfg, s, Release(w));
    SumHeldUpdate(s.workers, w, Waiting);
    Reowned(s, w, t);
    assert Accounted(cfg, t);
    assert StageOk(s.workers[w], s.ledger.finished);
    assert Ids(Held(s.workers[w])) <= s.ledger.finished;
    StillLive(s, w, t);
    assert Completing(t);
  }

  lemma PreflightKeeps(cfg: Config, s: State, w: nat, checks: seq<Check>)
    requires Inv(cfg, s) && Enabled(cfg, s, Preflight(w, checks))
    ensures Inv(cfg, Next(cfg, s, Preflight(w, checks)))
  {
    var batch := s.workers[w].batch;
    assert StageOk(s.workers[w], s.ledger.finished);
    assert Held(s.workers[w]) == batch;
    ScreenOnce(s.ledger, batch, checks);
    MoveKeeps(cfg, s, w, Next(cfg, s, Preflight(w, checks)));
  }

  lemma AnswerKeeps(cfg: Config, s: State, w: nat, outcome: Outcome, late: seq<Option<ErrorCode>>)
    requires Inv(cfg, s) && Enabled(cfg, s, Answer(w, outcome, late))
    ensures Inv(cfg, Next(cfg, s, Answer(w, outcome, late)))
  {
    var worker := s.workers[w];
    var targets := Targets(worker, outcome);
    assert StageOk(worker, s.ledger.finished);
    assert Held(worker) == worker.batch;
    FinishAllOnce(s.ledger, targets, Replies(|targets|, outcome), late);
    assert Ids(worker.active) <= Ids(worker.batch);
    assert Ids(targets) <= Ids(worker.batch) <= s.ledger.finished + Ids(targets);
    MoveKeeps(cfg, s, w, Next(cfg, s, Answer(w, outcome, late)));
  }

  /** Every step of every thread keeps the invariant, whatever the backend and the clock do. */
  lemma StepKeeps(cfg: Config, s: State, step: Step)
    requires Inv(cfg, s) && Enabled(cfg, s, step)
    ensures Inv(cfg, Next(cfg, s, step))
  {
    match step
    case Submit(requests) => AdmitKeeps(cfg, s, requests);
    case SubmitCallback(request) =>
      CallbackIsSingleSubmit(cfg, s, request);
      AdmitKeeps(cfg, s, [request]);
    case Shutdown =>
      var t := Next(cfg, s, step);
      forall id: nat | id < t.accepted && id !in t.ledger.finished ensures Live(t, id) { assert Live(s, id); }
    case Wake(w) => MoveKeeps(cfg, s, w, Next(cfg, s, step));
    case Take(w) => TakeKeeps(cfg, s, w);
    case Preflight(w, checks) => PreflightKeeps(cfg, s, w, checks);
    case Answer(w, outcome, late) => AnswerKeeps(cfg, s, w, outcome, late);
    case Release(w) => ReleaseKeeps(cfg, s, w);
  }

  lemma {:induction false} RunKeeps(cfg: Config, s: State, steps: seq<Step>, t: State)
    requires Inv(cfg, s) && Run(cfg, s, steps, t)
    ensures Inv(cfg, t) && |t.workers| == |s.workers|
    decreases |steps|
  {
    if steps != [] {
      StepKeeps(cfg, s, steps[0]);
      RunKeeps(cfg, Next(cfg, s, steps[0]), steps[1..], t);
    }
  }

  lemma ReachableInv(cfg: Config, s: State)
    requires Reachable(cfg, s)
    ensures Inv(cfg, s) && s.workers != []
  {
    var workers: nat, steps: seq<Step> :| workers > 0 && Run(cfg, Initial(workers), steps, s);
    InitialInv(cfg, workers);
    RunKeeps(cfg, Initial(workers), steps, s);
  }
}
