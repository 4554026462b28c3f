/** The bounded batching executor as a state machine whose steps are the critical
    sections of src/batching.cpp. Clocks, cancellation and the wrapped backend are step
    inputs, so a run ranges over every schedule and every backend behaviour. */
module Batching {
  import opened Wrappers

  datatype ErrorCode =
    | ShuttingDown | Overloaded | Cancelled | Timeout
    | InvalidBackendOutput | BackendFailure | BackendError(code: int)

  datatype Reply = Success(response: string) | Failure(error: ErrorCode)

  /** The text fields of an inference request: id, question, input, instructions, options, criteria. */
  datatype Request = Request(texts: seq<string>)

  function Bytes(texts: seq<string>): nat {
    if texts == [] then 0 else |texts[0]| + Bytes(texts[1..])
  }

  /** An admitted request. Jobs are told apart by their admission number. */
  datatype Job = Job(id: nat, request: Request)

  datatype Config = Config(capacity: nat, maxBatch: nat, bucketWidth: nat)

  ghost predicate ValidConfig(cfg: Config) {
    cfg.capacity > 0 && cfg.maxBatch > 0
  }

  /** Where one worker thread stands in its loop. */
  datatype Worker =
    | Waiting                                          // before the first wait
    | Anchored                                         // in the timed wait, lock released
    | Holding(batch: seq<Job>)                         // batch taken, nothing finished yet
    | Calling(batch: seq<Job>, active: seq<Job>)       // preflight done, backend running
    | Settled(batch: seq<Job>)                         // every finish call made
    | Exited

  datatype Delivery = Delivery(id: nat, reply: Reply)

  /** Which jobs are finished, and every promise or callback completion, oldest first. */
  datatype Ledger = Ledger(finished: set<nat>, log: seq<Delivery>)

  datatype State = State(
    queue: seq<Job>,
    workers: seq<Worker>,
    stopping: bool,
    admitted: seq<Request>,      // admitted[id] is what job id asked for
    ledger: Ledger,
    accepted: nat,
    rejected: nat,
    inFlight: int,
    completed: nat,
    batches: nat)

  /** What a wrapped backend may do with the views it is handed. */
  datatype Outcome = Failed(error: ErrorCode) | Replied(responses: seq<string>) | Threw

  /** The two expiry tests one preflight iteration makes: its own and the one in finish. */
  datatype Check = Check(preflight: Option<ErrorCode>, late: Option<ErrorCode>)

  datatype Step =
    | Submit(requests: seq<Request>)
    | SubmitCallback(request: Request)
    | Wake(w: nat)
    | Take(w: nat)
    | Preflight(w: nat, checks: seq<Check>)
    | Answer(w: nat, outcome: Outcome, late: seq<Option<ErrorCode>>)
    | Release(w: nat)
    | Shutdown

  function Held(w: Worker): seq<Job> {
    match w
    case Holding(batch) => batch
    case Calling(batch, _) => batch
    case Settled(batch) => batch
    case _ => []
  }

  function Initial(workers: nat): State {
    State([], seq(workers, _ => Waiting), false, [], Ledger({}, []), 0, 0, 0, 0, 0)
  }

  // ---------------------------------------------------------------- the steps

  function Bucket(cfg: Config, job: Job): nat {
    if cfg.bucketWidth == 0 then 0 else Bytes(job.request.texts) / cfg.bucketWidth
  }

  /** Jobs for a batch of requests numbered from `first`. */
  function Jobs(first: nat, requests: seq<Request>): (js: seq<Job>)
    ensures |js| == |requests|
    ensures forall i :: 0 <= i < |js| ==> js[i] == Job(first + i, requests[i])
  {
    seq(|requests|, i requires 0 <= i < |requests| => Job(first + i, requests[i]))
  }

  predicate Refuses(cfg: Config, s: State, rows: nat) {
    s.stopping || rows > cfg.capacity - |s.queue|
  }

  function Admit(cfg: Config, s: State, requests: seq<Request>): State {
    if Refuses(cfg, s, |requests|) then
      s.(rejected := s.rejected + |requests|)
    else
      s.(queue := s.queue + Jobs(s.accepted, requests),
         admitted := s.admitted + requests,
         accepted := s.accepted + |requests|)
  }

  /** One pass over the queue: up to `room` jobs of bucket `key` leave it, the rest stay. */
  function Split(cfg: Config, queue: seq<Job>, key: nat, room: nat): (seq<Job>, seq<Job>) {
    if queue == [] then ([], [])
    else if room > 0 && Bucket(cfg, queue[0]) == key then
      var (taken, kept) := Split(cfg, queue[1..], key, room - 1);
      ([queue[0]] + taken, kept)
    else
      var (taken, kept) := Split(cfg, queue[1..], key, room);
      (taken, [queue[0]] + kept)
  }

  function Dequeue(cfg: Config, queue: seq<Job>): (seq<Job>, seq<Job>)
    requires queue != []
  {
    Split(cfg, queue, Bucket(cfg, queue[0]), cfg.maxBatch)
  }

  function Late(reply: Reply, late: Option<ErrorCode>): Reply {
    if late.Some? then Failure(late.value) else reply
  }

  /** job::finish: only the first call for a job completes it. */
  function Finish(led: Ledger, id: nat, reply: Reply, late: Option<ErrorCode>): Ledger {
    if id in led.finished then led
    else Ledger(led.finished + {id}, led.log + [Delivery(id, Late(reply, late))])
  }

  function FinishAll(led: Ledger, jobs: seq<Job>, replies: seq<Reply>, late: seq<Option<ErrorCode>>): Ledger
    requires |jobs| == |replies| == |late|
    decreases |jobs|
  {
    if jobs == [] then led
    else FinishAll(Finish(led, jobs[0].id, replies[0], late[0]), jobs[1..], replies[1..], late[1..])
  }

  /** The preflight loop: expired jobs finish at once, the others become active. */
  function Screen(led: Ledger, batch: seq<Job>, checks: seq<Check>): (Ledger, seq<Job>)
    requires |batch| == |checks|
    decreases |batch|
  {
    if batch == [] then (led, [])
    else if checks[0].preflight.Some? then
      Screen(Finish(led, batch[0].id, Failure(checks[0].preflight.value), checks[0].late), batch[1..], checks[1..])
    else
      var (after, active) := Screen(led, batch[1..], checks[1..]);
      (after, [batch[0]] + active)
  }

  /** The jobs finish is called on after the backend call, in call order. */
  function Targets(worker: Worker, outcome: Outcome): seq<Job>
    requires worker.Calling?
  {
    if worker.active != [] && outcome.Threw? then worker.batch else worker.active
  }

  function Replies(n: nat, outcome: Outcome): (rs: seq<Reply>)
    ensures |rs| == n
  {
    match outcome
    case Failed(e) => seq(n, _ => Failure(e))
    case Threw => seq(n, _ => Failure(BackendFailure))
    case Replied(responses) =>
      if |responses| == n then seq(n, i requires 0 <= i < n => Success(responses[i]))
      else seq(n, _ => Failure(InvalidBackendOutput))
  }

  function SetWorker(s: State, w: nat, worker: Worker): State
    requires w < |s.workers|
  {
    s.(workers := s.workers[w := worker])
  }

  predicate Enabled(cfg: Config, s: State, step: Step) {
    match step
    case Submit(_) => true
    case SubmitCallback(_) => true
    case Shutdown => true
    case Wake(w) => w < |s.workers| && s.workers[w].Waiting? && (s.stopping || s.queue != [])
    case Take(w) => w < |s.workers| && s.workers[w].Anchored?
    case Preflight(w, checks) => w < |s.workers| && s.workers[w].Holding? && |checks| == |s.workers[w].batch|
    case Answer(w, outcome, late) =>
      w < |s.workers| && s.workers[w].Calling? && |late| == |Targets(s.workers[w], outcome)|
    case Release(w) => w < |s.workers| && s.workers[w].Settled?
  }

  function Next(cfg: Config, s: State, step: Step): State
    requires Enabled(cfg, s, step)
  {
    match step
    case Submit(requests) => Admit(cfg, s, requests)
    case SubmitCallback(request) =>
      if s.stopping || |s.queue| == cfg.capacity then s.(rejected := s.rejected + 1)
      else s.(queue := s.queue + [Job(s.accepted, request)], admitted := s.admitted + [request],
              accepted := s.accepted + 1)
    case Shutdown => s.(stopping := true)
    case Wake(w) => SetWorker(s, w, if s.queue == [] then Exited else Anchored)
    case Take(w) =>
      if s.queue == [] then SetWorker(s, w, Waiting)
      else
        var (taken, kept) := Dequeue(cfg, s.queue);
        SetWorker(s, w, Holding(taken)).(queue := kept, inFlight := s.inFlight + |taken|)
    case Preflight(w, checks) =>
      var batch := s.workers[w].batch;
      var (ledger, active) := Screen(s.ledger, batch, checks);
      SetWorker(s, w, Calling(batch, active))
        .(ledger := ledger, batches := if active == [] then s.batches else s.batches + 1)
    case Answer(w, outcome, late) =>
      var targets := Targets(s.workers[w], outcome);
      SetWorker(s, w, Settled(s.workers[w].batch))
        .(ledger := FinishAll(s.ledger, targets, Replies(|targets|, outcome), late))
    case Release(w) =>
      var n := |s.workers[w].batch|;
      SetWorker(s, w, Waiting).(inFlight := s.inFlight - n, completed := s.completed + n)
  }

  /** `t` is reached from `s` by taking `steps` in order. */
  ghost predicate Run(cfg: Config, s: State, steps: seq<Step>, t: State)
    decreases |steps|
  {
    if steps == [] then s == t
    else Enabled(cfg, s, steps[0]) && Run(cfg, Next(cfg, s, steps[0]), steps[1..], t)
  }

  ghost predicate Reachable(cfg: Config, s: State) {
    exists workers: nat, steps: seq<Step> :: workers > 0 && Run(cfg, Initial(workers), steps, s)
  }
}
