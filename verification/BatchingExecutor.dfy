/** The executor as it is written: fields updated in place inside each critical section, with the
    loops of src/batching.cpp, each method proved to take exactly one step of the state machine. */
module BatchingExecutor {
  import opened Batching
  import opened BatchingSafety
  import opened BatchingGuarantees
  import opened Wrappers

  datatype Admission = Admitted(first: nat, rows: nat) | Rejected(errors: seq<ErrorCode>)

  datatype Stats = Stats(queued: nat, inFlight: int, accepted: nat, rejected: nat, completed: nat, batches: nat)

  class Executor {
    const cfg: Config
    var queue: seq<Job>
    var workers: seq<Worker>
    var stopping: bool
    var admitted: seq<Request>
    var finished: set<nat>
    var log: seq<Delivery>
    var accepted: nat
    var rejected: nat
    var inFlight: int
    var completed: nat
    var batches: nat

    ghost function Model(): State
      reads this
    {
      State(queue, workers, stopping, admitted, Ledger(finished, log), accepted, rejected, inFlight, completed, batches)
    }

    ghost predicate Valid()
      reads this
    {
      ValidConfig(cfg) && |queue| <= cfg.capacity && Reachable(cfg, Model())
    }

    constructor (cfg: Config, workerCount: nat)
      requires ValidConfig(cfg) && workerCount > 0
      ensures Valid() && Model() == Initial(workerCount) && this.cfg == cfg
    {
      this.cfg := cfg;
      queue, workers, stopping := [], seq(workerCount, _ => Waiting), false;
      admitted, finished, log := [], {}, [];
      accepted, rejected, inFlight, completed, batches := 0, 0, 0, 0, 0;
      new;
      assert Run(cfg, Initial(workerCount), [], Model());
    }

    method Enqueue(requests: seq<Request>) returns (result: Admission)
      requires Valid()
      modifies this
      ensures Valid() && Model() == Next(cfg, old(Model()), Submit(requests))
      ensures result.Rejected? <==> old(stopping) || old(|queue|) + |requests| > cfg.capacity
      ensures result.Rejected? ==>
                && |result.errors| == |requests|
                && (forall e :: e in result.errors ==> e == if old(stopping) then ShuttingDown else Overloaded)
      ensures result.Admitted? ==> result == Admitted(old(accepted), |requests|)
    {
      ReachableNext(cfg, Model(), Submit(requests));
      if stopping || |requests| > cfg.capacity - |queue| {
        rejected := rejected + |requests|;
        var errors := [];
        for i := 0 to |requests|
          invariant |errors| == i && forall e :: e in errors ==> e == if stopping then ShuttingDown else Overloaded
        {
          errors := errors + [if stopping then ShuttingDown else Overloaded];
        }
        return Rejected(errors);
      }
      var pending := [];
      for i := 0 to |requests|
        invariant pending == Jobs(accepted, requests[..i])
      {
        pending := pending + [Job(accepted + i, requests[i])];
      }
      assert requests[..|requests|] == requests;
      result := Admitted(accepted, |requests|);
      queue := queue + pending;
      admitted := admitted + requests;
      accepted := accepted + |requests|;
    }

    method EnqueueCallback(request: Request) returns (refusal: Option<ErrorCode>)
      requires Valid()
      modifies this
      ensures Valid() && Model() == Next(cfg, old(Model()), SubmitCallback(request))
      ensures refusal == if old(stopping) then Some(ShuttingDown)
                         else if old(|queue|) == cfg.capacity then Some(Overloaded) else None
    {
      ReachableNext(cfg, Model(), SubmitCallback(request));
      if stopping || |queue| == cfg.capacity {
        rejected := rejected + 1;
        return Some(if stopping then ShuttingDown else Overloaded);
      }
      queue := queue + [Job(accepted, request)];
      admitted := admitted + [request];
      accepted := accepted + 1;
      refusal := None;
    }

    /** The worker leaves its first wait: with nothing queued it exits its loop. */
    method WakeUp(w: nat)
      requires Valid() && Enabled(cfg, Model(), Wake(w))
      modifies this
      ensures Valid() && Model() == Next(cfg, old(Model()), Wake(w))
      ensures w < |workers| && (workers[w].Exited? <==> queue == []) && (workers[w].Exited? ==> stopping)
    {
      ReachableNext(cfg, Model(), Wake(w));
      workers := workers[w := if queue == [] then Exited else Anchored];
    }

    /** The worker leaves its timed wait and takes one bucket out of the queue. */
    method TakeBatch(w: nat)
      requires Valid() && Enabled(cfg, Model(), Take(w))
      modifies this
      ensures Valid() && Model() == Next(cfg, old(Model()), Take(w))
    {
      ReachableNext(cfg, Model(), Take(w));
      if queue == [] {
        workers := workers[w := Waiting];
        return;
      }
      var batch := Extract(Bucket(cfg, queue[0]));
      workers := workers[w := Holding(batch)];
      inFlight := inFlight + |batch|;
    }

    /** Walk the queue and erase up to maxBatch jobs of one bucket from it. */
    method Extract(key: nat) returns (batch: seq<Job>)
      modifies this`queue
      ensures (batch, queue) == Split(cfg, old(queue), key, cfg.maxBatch)
      ensures |queue| <= old(|queue|)
    {
      batch := [];
      var it := 0;
      SplitStart(cfg, queue, key);
      while it < |queue| && |batch| < cfg.maxBatch
        invariant 0 <= it <= |queue| <= old(|queue|) && |batch| <= cfg.maxBatch
        invariant Split(cfg, old(queue), key, cfg.maxBatch) == Resume(cfg, batch, queue, it, key)
        decreases |queue| - it
      {
        SplitStep(cfg, batch, queue, it, key);
        if Bucket(cfg, queue[it]) == key {
          batch := batch + [queue[it]];
          queue := queue[..it] + queue[it + 1..];
        } else {
          it := it + 1;
        }
      }
      SplitEnd(cfg, batch, queue, it, key);
    }

    /** job::finish: the first call completes the job, later calls do nothing. */
    method FinishJob(id: nat, reply: Reply, late: Option<ErrorCode>)
      modifies this`finished, this`log
      ensures Ledger(finished, log) == Finish(old(Ledger(finished, log)), id, reply, late)
      ensures id in old(finished) ==> finished == old(finished) && log == old(log)
      ensures id !in old(finished) ==>
                && finished == old(finished) + {id}
                && log == old(log) + [Delivery(id, if late.Some? then Failure(late.value) else reply)]
    {
      if id in finished { return; }
      var response := reply;
      if late.Some? { response := Failure(late.value); }
      finished := finished + {id};
      log := log + [Delivery(id, response)];
    }

    method PreflightBatch(w: nat, checks: seq<Check>)
      requires Valid() && Enabled(cfg, Model(), Preflight(w, checks))
      modifies this
      ensures Valid() && Model() == Next(cfg, old(Model()), Preflight(w, checks))
    {
      ReachableNext(cfg, Model(), Preflight(w, checks));
      var batch := workers[w].batch;
      var active := ScreenEach(batch, checks);
      workers := workers[w := Calling(batch, active)];
      if active != [] { batches := batches + 1; }
    }

    /** The preflight loop: an expired row is finished, any other becomes active. */
    method ScreenEach(batch: seq<Job>, checks: seq<Check>) returns (active: seq<Job>)
      requires |batch| == |checks|
      modifies this`finished, this`log
      ensures (Ledger(finished, log), active) == Screen(old(Ledger(finished, log)), batch, checks)
    {
      active := [];
      ghost var screened := Screen(Ledger(finished, log), batch, checks);
      assert batch[0..] == batch && checks[0..] == checks && [] + screened.1 == screened.1;
      for i := 0 to |batch|
        invariant var (led, rest) := Screen(Ledger(finished, log), batch[i..], checks[i..]);
                  Screen(old(Ledger(finished, log)), batch, checks) == (led, active + rest)
      {
        assert batch[i..][0] == batch[i] && batch[i..][1..] == batch[i + 1..];
        assert checks[i..][0] == checks[i] && checks[i..][1..] == checks[i + 1..];
        if checks[i].preflight.Some? {
          FinishJob(batch[i].id, Failure(checks[i].preflight.value), checks[i].late);
        } else {
          ghost var rest := Screen(Ledger(finished, log), batch[i + 1..], checks[i + 1..]).1;
          assert active + ([batch[i]] + rest) == (active + [batch[i]]) + rest;
          active := active + [batch[i]];
        }
      }
      assert active + [] == active;
    }

    /** The backend call has returned or thrown: finish every row it concerns. */
    method SettleBatch(w: nat, outcome: Outcome, late: seq<Option<ErrorCode>>)
      requires Valid() && Enabled(cfg, Model(), Answer(w, outcome, late))
      modifies this
      ensures Valid() && Model() == Next(cfg, old(Model()), Answer(w, outcome, late))
    {
      ReachableNext(cfg, Model(), Answer(w, outcome, late));
      var batch, active := workers[w].batch, workers[w].active;
      if active != [] {
        match outcome {
          case Failed(e) => FinishEach(active, Replies(|active|, outcome), late);
          case Replied(responses) => FinishEach(active, Replies(|active|, outcome), late);
          case Threw => FinishEach(batch, Replies(|batch|, outcome), late);
        }
      }
      workers := workers[w := Settled(batch)];
    }

    method FinishEach(jobs: seq<Job>, replies: seq<Reply>, late: seq<Option<ErrorCode>>)
      requires |jobs| == |replies| == |late|
      modifies this`finished, this`log
      ensures Ledger(finished, log) == FinishAll(old(Ledger(finished, log)), jobs, replies, late)
    {
      for i := 0 to |jobs|
        invariant FinishAll(old(Ledger(finished, log)), jobs, replies, late)
               == FinishAll(Ledger(finished, log), jobs[i..], replies[i..], late[i..])
      {
        assert jobs[i..][1..] == jobs[i + 1..] && replies[i..][1..] == replies[i + 1..];
        assert late[i..][1..] == late[i + 1..];
        FinishJob(jobs[i].id, replies[i], late[i]);
      }
    }

    method ReleaseBatch(w: nat)
      requires Valid() && Enabled(cfg, Model(), Release(w))
      modifies this
      ensures Valid() && Model() == Next(cfg, old(Model()), Release(w))
    {
      ReachableNext(cfg, Model(), Release(w));
      var n := |workers[w].batch|;
      inFlight := inFlight - n;
      completed := completed + n;
      workers := workers[w := Waiting];
    }

    method BeginShutdown()
      requires Valid()
      modifies this
      ensures Valid() && Model() == Next(cfg, old(Model()), Shutdown)
    {
      ReachableNext(cfg, Model(), Shutdown);
      stopping := true;
    }

    /** The statistics are read under the lock, so they are those of one state and add up. */
    method Snapshot() returns (stats: Stats)
      requires Valid()
      ensures stats == Stats(|Model().queue|, Model().inFlight, Model().accepted, Model().rejected,
                             Model().completed, Model().batches)
      ensures stats.accepted == stats.queued + stats.inFlight + stats.completed
      ensures stats.queued <= cfg.capacity && 0 <= stats.inFlight <= |Model().workers| * cfg.maxBatch
    {
      ReachableInv(cfg, Model());
      HeldAtMost(workers, cfg.maxBatch);
      stats := Stats(|queue|, inFlight, accepted, rejected, completed, batches);
    }
  }

  /** predict_batch waits for its futures in caller order, keeping the first failure. */
  method CollectReplies(replies: seq<Reply>) returns (result: Batch)
    ensures result == Gather(replies)
  {
    var responses := [];
    var failure: Option<ErrorCode> := None;
    for i := 0 to |replies|
      invariant Gather(replies) == if failure.Some? then FirstFailure(failure.value)
                                   else Prepend(responses, Gather(replies[i..]))
    {
      assert replies[i..][1..] == replies[i + 1..];
      match replies[i] {
        case Failure(e) => if failure.None? { failure := Some(e); }
        case Success(r) =>
          if failure.None? { PrependMore(responses, r, Gather(replies[i + 1..])); }
          responses := responses + [r];
      }
    }
    assert responses + [] == responses;
    result := if failure.Some? then FirstFailure(failure.value) else Responses(responses);
  }

  lemma {:induction false} HeldAtMost(workers: seq<Worker>, most: nat)
    requires forall w :: 0 <= w < |workers| ==> |Held(workers[w])| <= most
    ensures SumHeld(workers) <= |workers| * most
  {
    if workers != [] {
      HeldAtMost(workers[1..], most);
      assert |workers| * most == most + (|workers| - 1) * most;
    }
  }

  function Prepend(rows: seq<string>, batch: Batch): Batch {
    match batch
    case FirstFailure(_) => batch
    case Responses(more) => Responses(rows + more)
  }

  lemma PrependMore(rows: seq<string>, r: string, batch: Batch)
    ensures Prepend(rows, Prepend([r], batch)) == Prepend(rows + [r], batch)
  {
    if batch.Responses? { assert rows + ([r] + batch.rows) == (rows + [r]) + batch.rows; }
  }

  /** The split that remains to be done when `batch` is taken and queue[..it] has been passed over. */
  ghost function Resume(cfg: Config, batch: seq<Job>, queue: seq<Job>, it: nat, key: nat): (seq<Job>, seq<Job>)
    requires it <= |queue| && |batch| <= cfg.maxBatch
  {
    var (taken, kept) := Split(cfg, queue[it..], key, cfg.maxBatch - |batch|);
    (batch + taken, queue[..it] + kept)
  }

  lemma SplitStart(cfg: Config, queue: seq<Job>, key: nat)
    ensures Resume(cfg, [], queue, 0, key) == Split(cfg, queue, key, cfg.maxBatch)
  {
    var (taken, kept) := Split(cfg, queue, key, cfg.maxBatch);
    assert queue[0..] == queue && [] + taken == taken && queue[..0] + kept == kept;
  }

  lemma SplitStep(cfg: Config, batch: seq<Job>, queue: seq<Job>, it: nat, key: nat)
    requires it < |queue| && |batch| < cfg.maxBatch
    ensures Resume(cfg, batch, queue, it, key)
         == if Bucket(cfg, queue[it]) == key
            then Resume(cfg, batch + [queue[it]], queue[..it] + queue[it + 1..], it, key)
            else Resume(cfg, batch, queue, it + 1, key)
  {
    assert queue[it..][0] == queue[it] && queue[it..][1..] == queue[it + 1..];
    if Bucket(cfg, queue[it]) == key {
      var shorter := queue[..it] + queue[it + 1..];
      assert shorter[it..] == queue[it + 1..] && shorter[..it] == queue[..it];
      var rest := Split(cfg, queue[it + 1..], key, cfg.maxBatch - |batch| - 1);
      assert batch + ([queue[it]] + rest.0) == (batch + [queue[it]]) + rest.0;
    } else {
      var rest := Split(cfg, queue[it + 1..], key, cfg.maxBatch - |batch|);
      assert queue[..it] + ([queue[it]] + rest.1) == queue[..it + 1] + rest.1;
    }
  }

  lemma SplitEnd(cfg: Config, batch: seq<Job>, queue: seq<Job>, it: nat, key: nat)
    requires it <= |queue| && |batch| <= cfg.maxBatch && (it == |queue| || |batch| == cfg.maxBatch)
    ensures Resume(cfg, batch, queue, it, key) == (batch, queue)
  {
    NoRoom(cfg, queue[it..], key);
    assert queue[..it] + queue[it..] == queue && batch + [] == batch;
  }

  /** A full batch takes nothing more. */
  lemma {:induction false} NoRoom(cfg: Config, queue: seq<Job>, key: nat)
    ensures Split(cfg, queue, key, 0) == ([], queue)
  {
    if queue != [] {
      NoRoom(cfg, queue[1..], key);
      assert queue == [queue[0]] + queue[1..];
    }
  }
}
