/** The bounded evidence graph of include/jevt/knowledge.hpp as a state machine on values: what each
    entry point does to the stored facts, the superseded versions and the deduplication window. */
module KnowledgeGraph {
  import opened Lists
  import opened Wrappers

  datatype Scope = ObservationScope | RunScope | SessionScope
  datatype Evidence = RamObservation | VerifiedOutcome | ModelHypothesis

  datatype Fact = Fact(
    id: string, subject: string, relation: string, object_: string, source: string,
    attributes: string, eventId: string, runId: string,
    scope: Scope, evidence: Evidence, tick: nat, expiresAt: Option<nat>, priority: nat)

  datatype Limits = Limits(facts: nat, deduplicationIds: nat, fieldBytes: nat)

  ghost predicate ValidLimits(limits: Limits) {
    limits.facts > 0 && limits.deduplicationIds > 0 && limits.fieldBytes > 0
  }

  datatype State = State(
    run: string,
    facts: seq<Fact>,
    seen: set<string>,
    eventOrder: seq<string>,
    superseded: set<VersionKey>,
    generation: nat)

  datatype Outcome = Outcome(accepted: bool, reason: string, generation: nat)

  const Fresh := State("", [], {}, [], {}, 0)

  // ---------------------------------------------------------------------- keys

  /** The reserved unit separator, byte 0x1f. */
  const SEP: char := '\U{1F}'

  function ScopeName(scope: Scope): string {
    match scope
    case ObservationScope => "observation"
    case RunScope => "run"
    case SessionScope => "session"
  }

  /** The proposition a fact is about, and the version of it that the fact states. The program joins these
      fields into one text each; KeyReadable in KnowledgeInvariant shows that for validated facts comparing
      the texts and comparing the fields is the same. */
  datatype IdentityKey = IdentityKey(runId: string, scope: Scope, id: string)
  datatype VersionKey = VersionKey(identity: IdentityKey, subject: string, relation: string, object_: string)

  function Identity(f: Fact): IdentityKey {
    IdentityKey(f.runId, f.scope, f.id)
  }

  function Key(f: Fact): VersionKey {
    VersionKey(Identity(f), f.subject, f.relation, f.object_)
  }

  function IdentityText(f: Fact): string {
    f.runId + [SEP] + ScopeName(f.scope) + [SEP] + f.id
  }

  function KeyText(f: Fact): string {
    f.runId + [SEP] + ScopeName(f.scope) + [SEP] + f.id + [SEP] + f.subject + [SEP] + f.relation + [SEP] + f.object_
  }

  function EventKey(f: Fact): string {
    f.runId + ":" + f.eventId
  }

  function EvidenceRank(e: Evidence): nat {
    match e
    case RamObservation => 1
    case VerifiedOutcome => 2
    case ModelHypothesis => 0
  }

  predicate IsSession(f: Fact) { f.scope.SessionScope? }

  // ---------------------------------------------------------------- validation

  function FieldError(limits: Limits, field: string): string {
    if field == "" then "required_fact_field_missing"
    else if |field| > limits.fieldBytes then "fact_field_too_long"
    else if SEP in field then "reserved_fact_separator"
    else ""
  }

  function FirstError(limits: Limits, fields: seq<string>): string {
    if fields == [] then ""
    else if FieldError(limits, fields[0]) != "" then FieldError(limits, fields[0])
    else FirstError(limits, fields[1..])
  }

  function RequiredFields(f: Fact): seq<string> {
    [f.id, f.subject, f.relation, f.object_, f.source, f.eventId, f.runId]
  }

  function Validate(limits: Limits, run: string, f: Fact): string {
    var bad := FirstError(limits, RequiredFields(f));
    if bad != "" then bad
    else if |f.attributes| > limits.fieldBytes then "fact_field_too_long"
    else if f.priority > 1000 then "priority_out_of_range"
    else if !IsSession(f) && run == "" then "run_not_started"
    else ""
  }

  // ------------------------------------------------------------- entry points

  predicate Stale(facts: seq<Fact>, f: Fact) {
    exists i :: 0 <= i < |facts| && Identity(facts[i]) == Identity(f) && f.tick < facts[i].tick
  }

  /** Oldest ids leave the window until it fits. */
  function Trimmed(order: seq<string>, limit: nat): set<string> {
    if |order| > limit then set i | 0 <= i < |order| - limit :: order[i] else {}
  }

  /** Other stored versions of the same proposition are no longer current. */
  function Conflicting(facts: seq<Fact>, f: Fact): set<VersionKey> {
    set g | g in facts && Identity(g) == Identity(f) && Key(g) != Key(f) :: Key(g)
  }

  /** Index of the stored version with this key, the last if there were several. */
  function Find(facts: seq<Fact>, key: VersionKey): (i: int)
    ensures -1 <= i < |facts|
    ensures i >= 0 ==> Key(facts[i]) == key
    ensures i == -1 ==> forall j :: 0 <= j < |facts| ==> Key(facts[j]) != key
    decreases |facts|
  {
    if facts == [] then -1
    else if Key(facts[|facts| - 1]) == key then |facts| - 1
    else Find(facts[..|facts| - 1], key)
  }

  /** A re-observation refreshes the stored version; provenance follows the strongest evidence. */
  function Appended(previous: Fact, f: Fact): Fact {
    var refreshed := previous.(
      tick := f.tick, expiresAt := f.expiresAt,
      priority := if previous.priority < f.priority then f.priority else previous.priority);
    if EvidenceRank(f.evidence) >= EvidenceRank(previous.evidence)
    then refreshed.(evidence := f.evidence, source := f.source, eventId := f.eventId)
    else refreshed
  }

  /** The first fact outside the session, or the oldest fact when all are of the session. */
  function Victim(facts: seq<Fact>): (i: nat)
    requires facts != []
    ensures i < |facts|
  {
    if forall k :: 0 <= k < |facts| ==> IsSession(facts[k]) then 0 else FirstOutside(facts, 0)
  }

  function FirstOutside(facts: seq<Fact>, from: nat): (i: nat)
    requires from < |facts| && exists k :: from <= k < |facts| && !IsSession(facts[k])
    ensures from <= i < |facts| && !IsSession(facts[i])
    ensures forall k :: from <= k < i ==> IsSession(facts[k])
    decreases |facts| - from
  {
    if !IsSession(facts[from]) then from else FirstOutside(facts, from + 1)
  }

  function Store(limits: Limits, s: State, f: Fact): State {
    var superseded := s.superseded + Conflicting(s.facts, f);
    var at := Find(s.facts, Key(f));
    if at >= 0 then
      s.(facts := s.facts[at := Appended(s.facts[at], f)], superseded := superseded - {Key(s.facts[at])},
         generation := s.generation + 1)
    else if |s.facts| == limits.facts && s.facts != [] then
      var i := Victim(s.facts);
      s.(facts := s.facts[..i] + s.facts[i + 1..] + [f], superseded := superseded - {Key(s.facts[i])},
         generation := s.generation + 1)
    else
      s.(facts := s.facts + [f], superseded := superseded, generation := s.generation + 1)
  }

  function Witness(limits: Limits, s: State, f: Fact): State {
    var order := s.eventOrder + [EventKey(f)];
    s.(seen := s.seen + {EventKey(f)} - Trimmed(order, limits.deduplicationIds),
       eventOrder := Newest(order, limits.deduplicationIds))
  }

  function Rejection(limits: Limits, s: State, f: Fact): string {
    var invalid := Validate(limits, s.run, f);
    if invalid != "" then invalid
    else if !IsSession(f) && f.runId != s.run then "wrong_run_scope"
    else if f.scope.ObservationScope? && (f.expiresAt.None? || f.expiresAt.value < f.tick)
      then "observation_needs_valid_expiry"
    else if Stale(s.facts, f) then "stale_evidence_tick"
    else if EventKey(f) in s.seen then "duplicate_event"
    else ""
  }

  function IngestRecord(limits: Limits, s: State, f: Fact): State {
    if Rejection(limits, s, f) != "" then s else Store(limits, Witness(limits, s, f), f)
  }

  predicate BadRunId(limits: Limits, run: string) {
    run == "" || |run| > limits.fieldBytes || SEP in run
  }

  function BeginRun(limits: Limits, s: State, run: string, retain: bool): State
    requires !BadRunId(limits, run)
  {
    var stays := (f: Fact) => IsSession(f) && retain;
    var kept := Filter(s.facts, stays);
    var gone := Filter(s.facts, (f: Fact) => !(IsSession(f) && retain));
    State(run, kept, {}, [], s.superseded - set f | f in gone :: Key(f),
          if gone == [] then s.generation else s.generation + 1)
  }

  function SessionSnapshot(s: State): seq<Fact> {
    Filter(s.facts, (f: Fact) => IsSession(f) && Key(f) !in s.superseded)
  }

  datatype RestoreError = RunNotBegun | TooMany | NotSession | InvalidFact(reason: string) | DuplicateIdentity

  function Outside(facts: seq<Fact>): seq<Fact> {
    Filter(facts, (f: Fact) => !IsSession(f))
  }

  /** The first snapshot record the checking loop refuses. */
  function RecordError(limits: Limits, run: string, snapshot: seq<Fact>, i: nat): Option<RestoreError>
    requires i <= |snapshot|
    decreases |snapshot| - i
  {
    if i == |snapshot| then None
    else if !IsSession(snapshot[i]) then Some(NotSession)
    else if Validate(limits, run, snapshot[i]) != "" then Some(InvalidFact(Validate(limits, run, snapshot[i])))
    else if exists j :: 0 <= j < i && Identity(snapshot[j]) == Identity(snapshot[i]) then Some(DuplicateIdentity)
    else RecordError(limits, run, snapshot, i + 1)
  }

  function RestoreFailure(limits: Limits, s: State, snapshot: seq<Fact>): Option<RestoreError> {
    if s.run == "" then Some(RunNotBegun)
    else if |snapshot| + |Outside(s.facts)| > limits.facts then Some(TooMany)
    else RecordError(limits, s.run, snapshot, 0)
  }

  /** On success the session facts are replaced by the snapshot; a failure leaves the graph alone. */
  function Restore(limits: Limits, s: State, snapshot: seq<Fact>): State {
    if RestoreFailure(limits, s, snapshot).Some? then s
    else s.(facts := Outside(s.facts) + snapshot,
            superseded := s.superseded - set f | f in s.facts && IsSession(f) :: Key(f),
            generation := s.generation + 1)
  }

  function Clear(s: State): State {
    State("", [], {}, [], {}, s.generation + 1)
  }

  datatype Path = General | AsHypothesis | AsObservation | AsOutcome

  /** The attested entry points stamp the evidence kind; the general one takes hypotheses only. */
  function Stamped(path: Path, f: Fact): Fact {
    match path
    case General => f
    case AsHypothesis => f.(evidence := ModelHypothesis)
    case AsObservation => f.(evidence := RamObservation)
    case AsOutcome => f.(evidence := VerifiedOutcome)
  }

  function Ingest(limits: Limits, s: State, path: Path, f: Fact): State {
    if path.General? && !f.evidence.ModelHypothesis? then s else IngestRecord(limits, s, Stamped(path, f))
  }

  datatype Op =
    | IngestOp(path: Path, fact: Fact)
    | BeginRunOp(run: string, retain: bool)
    | RestoreOp(snapshot: seq<Fact>)
    | ClearOp

  function Apply(limits: Limits, s: State, op: Op): State {
    match op
    case IngestOp(path, f) => Ingest(limits, s, path, f)
    case BeginRunOp(run, retain) => if BadRunId(limits, run) then s else BeginRun(limits, s, run, retain)
    case RestoreOp(snapshot) => Restore(limits, s, snapshot)
    case ClearOp => Clear(s)
  }

  function ApplyAll(limits: Limits, s: State, ops: seq<Op>): State
    decreases |ops|
  {
    if ops == [] then s else Apply(limits, ApplyAll(limits, s, ops[..|ops| - 1]), ops[|ops| - 1])
  }
}
