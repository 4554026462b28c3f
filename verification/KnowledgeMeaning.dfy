/** What each operation of the evidence graph means, by the fields of the facts and over runs: which events are
    duplicates, which facts are valid, and what a re-observation, a run change, a restore and an eviction leave. */
module KnowledgeMeaning {
  import opened Lists
  import opened KnowledgeGraph
  import opened KnowledgeInvariant
  import opened KnowledgeGuarantees
  import opened Wrappers

  // ----------------------------------------------------------- duplicate events

  /** A session fact that passes every other check is refused as a duplicate exactly when an event with its key is
      still in the window; after an accepted fact that is so for every fact with the same event key. */
  lemma DuplicateRefused(limits: Limits, s: State, a: Fact, b: Fact)
    requires ValidLimits(limits) && Inv(limits, s) && Rejection(limits, s, a) == "" && IsSession(b)
    requires Validate(limits, s.run, b) == "" && !Stale(IngestRecord(limits, s, a).facts, b)
    ensures var t := IngestRecord(limits, s, a);
            && (Rejection(limits, t, b) == "duplicate_event" <==> EventKey(b) in t.seen)
            && (EventKey(a) == EventKey(b) ==>
              Rejection(limits, t, b) == "duplicate_event" && IngestRecord(limits, t, b) == t)
  {
    WitnessKeeps(limits, s, a);
  }

  /** The event keys of the facts accepted since the run began or the graph was cleared, oldest first. */
  ghost function AcceptedKeys(limits: Limits, ops: seq<Op>): seq<string>
    decreases |ops|
  {
    if ops == [] then []
    else
      var front := ops[..|ops| - 1];
      NextKeys(limits, ApplyAll(limits, Fresh, front), AcceptedKeys(limits, front), ops[|ops| - 1])
  }

  ghost function NextKeys(limits: Limits, s: State, keys: seq<string>, op: Op): seq<string> {
    match op
    case IngestOp(path, f) =>
      if !(path == General && f.evidence != ModelHypothesis) && Rejection(limits, s, Stamped(path, f)) == ""
      then keys + [EventKey(f)] else keys
    case BeginRunOp(run, _) => if run == "" || |run| > limits.fieldBytes || SEP in run then keys else []
    case RestoreOp(_) => keys
    case ClearOp => []
  }

  /** The newest of the keys, as many as the limit allows. */
  ghost predicate NewestOf(keys: seq<string>, order: seq<string>, limit: nat) {
    |order| == (if |keys| < limit then |keys| else limit) && order == keys[|keys| - |order|..]
  }

  /** Over every run the window holds exactly the newest of those keys, as many as it may, in order. */
  lemma {:induction false} WindowExact(limits: Limits, ops: seq<Op>)
    requires ValidLimits(limits)
    ensures NewestOf(AcceptedKeys(limits, ops), ApplyAll(limits, Fresh, ops).eventOrder, limits.deduplicationIds)
    decreases |ops|
  {
    if ops != [] {
      var front := ops[..|ops| - 1];
      WindowExact(limits, front);
      WindowStep(limits, ApplyAll(limits, Fresh, front), AcceptedKeys(limits, front), ops[|ops| - 1]);
    }
  }

  lemma WindowStep(limits: Limits, s: State, keys: seq<string>, op: Op)
    requires ValidLimits(limits) && NewestOf(keys, s.eventOrder, limits.deduplicationIds)
    ensures NewestOf(NextKeys(limits, s, keys, op), Apply(limits, s, op).eventOrder, limits.deduplicationIds)
  {
    if op.IngestOp? { IngestStep(limits, s, keys, op.path, op.fact); } else { OtherStep(limits, s, keys, op); }
  }

  lemma IngestStep(limits: Limits, s: State, keys: seq<string>, path: Path, f: Fact)
    requires ValidLimits(limits) && NewestOf(keys, s.eventOrder, limits.deduplicationIds)
    ensures NewestOf(NextKeys(limits, s, keys, IngestOp(path, f)), Ingest(limits, s, path, f).eventOrder,
                     limits.deduplicationIds)
  {
    IngestWindow(limits, s, path, f);
    WindowNext(keys, s.eventOrder, limits.deduplicationIds, EventKey(f));
  }

  lemma OtherStep(limits: Limits, s: State, keys: seq<string>, op: Op)
    requires ValidLimits(limits) && NewestOf(keys, s.eventOrder, limits.deduplicationIds) && !op.IngestOp?
    ensures NewestOf(NextKeys(limits, s, keys, op), Apply(limits, s, op).eventOrder, limits.deduplicationIds)
  {
  }

  lemma IngestWindow(limits: Limits, s: State, path: Path, f: Fact)
    ensures Ingest(limits, s, path, f).eventOrder
         == if !(path == General && f.evidence != ModelHypothesis) && Rejection(limits, s, Stamped(path, f)) == ""
            then Newest(s.eventOrder + [EventKey(f)], limits.deduplicationIds)
            else s.eventOrder
  {
    assert Stamped(path, f).runId == f.runId && Stamped(path, f).eventId == f.eventId;
  }

  lemma WindowNext(keys: seq<string>, order: seq<string>, limit: nat, key: string)
    requires limit > 0 && NewestOf(keys, order, limit)
    ensures NewestOf(keys + [key], Newest(order + [key], limit), limit)
  {
    assert order + [key] == (keys + [key])[|keys| - |order|..];
  }

  /** Every check but the one for duplicates. */
  ghost predicate OtherwiseFine(limits: Limits, s: State, f: Fact) {
    && Validate(limits, s.run, f) == "" && (f.scope == SessionScope || f.runId == s.run)
    && (f.scope == ObservationScope ==> f.expiresAt.Some? && f.tick <= f.expiresAt.value)
    && forall g :: g in s.facts && Identity(g) == Identity(f) ==> g.tick <= f.tick
  }

  /** The key is one of the newest `limit` keys. */
  ghost predicate AmongNewest(keys: seq<string>, limit: nat, key: string) {
    exists k :: 0 <= k < |keys| && |keys| - limit <= k && keys[k] == key
  }

  /** So over every run a fact that passes every other check is refused as a duplicate exactly when its event key is
      among the newest of the keys accepted, and accepted otherwise. */
  lemma DuplicateIff(limits: Limits, ops: seq<Op>, f: Fact)
    requires ValidLimits(limits) && OtherwiseFine(limits, ApplyAll(limits, Fresh, ops), f)
    ensures Rejection(limits, ApplyAll(limits, Fresh, ops), f)
         == if AmongNewest(AcceptedKeys(limits, ops), limits.deduplicationIds, EventKey(f))
            then "duplicate_event" else ""
  {
    WindowExact(limits, ops);
    ReachableWindow(limits, ops);
    DuplicateAt(limits, ApplyAll(limits, Fresh, ops), AcceptedKeys(limits, ops), f);
  }

  lemma ReachableWindow(limits: Limits, ops: seq<Op>)
    requires ValidLimits(limits)
    ensures Window(limits, ApplyAll(limits, Fresh, ops).seen, ApplyAll(limits, Fresh, ops).eventOrder)
  {
    Reachable(limits, ops);
  }

  lemma DuplicateAt(limits: Limits, s: State, keys: seq<string>, f: Fact)
    requires OtherwiseFine(limits, s, f) && Window(limits, s.seen, s.eventOrder)
    requires NewestOf(keys, s.eventOrder, limits.deduplicationIds)
    ensures Rejection(limits, s, f)
         == if AmongNewest(keys, limits.deduplicationIds, EventKey(f)) then "duplicate_event" else ""
  {
    LastCheck(limits, s, f);
    Recent(keys, s.eventOrder, limits.deduplicationIds, EventKey(f));
  }

  /** The duplicate check is the last one. */
  lemma LastCheck(limits: Limits, s: State, f: Fact)
    requires OtherwiseFine(limits, s, f) && Window(limits, s.seen, s.eventOrder)
    ensures Rejection(limits, s, f) == if EventKey(f) in s.eventOrder then "duplicate_event" else ""
  {
    assert forall i :: 0 <= i < |s.facts| ==> s.facts[i] in s.facts;
  }

  lemma Recent(keys: seq<string>, order: seq<string>, limit: nat, key: string)
    requires NewestOf(keys, order, limit)
    ensures key in order <==> AmongNewest(keys, limit, key)
  {
    var from := |keys| - |order|;
    if key in order {
      var i :| 0 <= i < |order| && order[i] == key;
      assert keys[from + i] == key;
    }
    if k :| 0 <= k < |keys| && |keys| - limit <= k && keys[k] == key { assert order[k - from] == key; }
  }

  /** On a new graph two valid session facts with the same event key are each acceptable, but whichever comes
      second is refused. */
  lemma SecondRefused(limits: Limits, a: Fact, b: Fact)
    requires ValidLimits(limits) && IsSession(a) && IsSession(b)
    requires Validate(limits, "", a) == "" && Validate(limits, "", b) == ""
    requires EventKey(a) == EventKey(b) && Identity(a) != Identity(b)
    ensures Rejection(limits, Fresh, a) == "" && Rejection(limits, Fresh, b) == ""
    ensures Rejection(limits, ApplyAll(limits, Fresh, [IngestOp(AsHypothesis, a)]), b) == "duplicate_event"
  {
    var stamped := Stamped(AsHypothesis, a);
    assert RequiredFields(stamped) == RequiredFields(a);
    FirstFact(limits, Fresh, a);
    FirstFact(limits, Fresh, b);
    FirstFact(limits, Fresh, stamped);
    assert [IngestOp(AsHypothesis, a)][..0] == [];
    DuplicateRefused(limits, Fresh, stamped, b);
  }

  /** Two such facts, of different events in different runs. */
  lemma EventKeysCollide()
    ensures var a, b := Sample("r:1", "e"), Sample("r", "1:e");
            && a.runId != b.runId && a.eventId != b.eventId
            && Rejection(ROOM, Fresh, a) == "" && Rejection(ROOM, Fresh, b) == ""
            && Rejection(ROOM, ApplyAll(ROOM, Fresh, [IngestOp(AsHypothesis, a)]), b) == "duplicate_event"
  {
    SampleValid("r:1", "e");
    SampleValid("r", "1:e");
    SameText();
    SecondRefused(ROOM, Sample("r:1", "e"), Sample("r", "1:e"));
  }

  const ROOM := Limits(4, 4, 64)

  /** A concrete valid session fact. */
  function Sample(runId: string, eventId: string): Fact {
    Fact("f", "door", "is", "open", "probe", "", eventId, runId, SessionScope, ModelHypothesis, 0, None, 0)
  }

  lemma SampleValid(runId: string, eventId: string)
    requires runId in {"r", "r:1"} && eventId in {"e", "1:e"}
    ensures Validate(ROOM, "", Sample(runId, eventId)) == ""
  {
    AllFine(ROOM, Sample(runId, eventId));
  }

  lemma SameText()
    ensures EventKey(Sample("r:1", "e")) == EventKey(Sample("r", "1:e"))
  {
    assert EventKey(Sample("r:1", "e")) == "r:1:e" && EventKey(Sample("r", "1:e")) == "r:1:e";
  }

  // ------------------------------------------------------------ what is stored

  /** What validation asks: seven texts that are not empty, not too long and free of the separator, attributes that are
      not too long, a priority up to 1000, and a run for anything outside the session. */
  lemma ValidIff(limits: Limits, run: string, f: Fact)
    ensures Validate(limits, run, f) == "" <==>
              && (forall field :: field in [f.id, f.subject, f.relation, f.object_, f.source, f.eventId, f.runId] ==>
                    field != "" && |field| <= limits.fieldBytes && '\U{1F}' !in field)
              && |f.attributes| <= limits.fieldBytes && f.priority <= 1000
              && (f.scope == SessionScope || run != "")
  {
    var fields := RequiredFields(f);
    if FirstError(limits, fields) == "" { NoErrorMeansClean(limits, fields); }
    if forall field :: field in fields ==> FieldError(limits, field) == "" { CleanMeansNoError(limits, fields); }
  }

  /** A re-observation: tick and expiry are the new ones, the priority is the greater one, and evidence, source and
      event follow the new fact unless its evidence is weaker; a verified outcome is stronger than an observation
      and that stronger than a hypothesis. */
  lemma RefreshedIs(limits: Limits, s: State, f: Fact, at: nat)
    requires KeysDistinct(s.facts) && at < |s.facts| && Key(s.facts[at]) == Key(f)
    ensures var old_, t := s.facts[at], Store(limits, s, f);
            var weaker := || (f.evidence == ModelHypothesis && old_.evidence != ModelHypothesis)
                          || (f.evidence == RamObservation && old_.evidence == VerifiedOutcome);
            && |t.facts| == |s.facts| && (forall k :: 0 <= k < |s.facts| && k != at ==> t.facts[k] == s.facts[k])
            && t.facts[at] == old_.(
                 tick := f.tick, expiresAt := f.expiresAt,
                 priority := if f.priority > old_.priority then f.priority else old_.priority,
                 evidence := if weaker then old_.evidence else f.evidence,
                 source := if weaker then old_.source else f.source,
                 eventId := if weaker then old_.eventId else f.eventId)
  {
  }

  /** An ingest leaves facts about other propositions as current or superseded as they were. */
  lemma OthersStay(limits: Limits, s: State, f: Fact, g: Fact)
    requires ValidLimits(limits) && Inv(limits, s) && Identity(g) != Identity(f)
    requires g in IngestRecord(limits, s, f).facts
    ensures g in s.facts && (Key(g) in IngestRecord(limits, s, f).superseded <==> Key(g) in s.superseded)
  {
    if Rejection(limits, s, f) == "" {
      var at := Find(s.facts, Key(f));
      var t := Witness(limits, s, f);
      if at < 0 && |s.facts| == limits.facts {
        var i := Victim(s.facts);
        WithoutMember(s.facts, i, g);
      }
    }
  }

  /** A run change keeps exactly the session facts when they are to be retained, in order and as current as they were,
      opens an empty window, and counts a generation when something was dropped. */
  lemma RunChange(limits: Limits, s: State, run: string, retain: bool, f: Fact)
    requires Inv(limits, s) && !BadRunId(limits, run)
    ensures var t := BeginRun(limits, s, run, retain);
            && t.run == run && t.seen == {} && t.eventOrder == []
            && (f in t.facts <==> f in s.facts && f.scope == SessionScope && retain)
            && (f in t.facts ==> (Key(f) in t.superseded <==> Key(f) in s.superseded))
            && t.generation == s.generation + (if |t.facts| < |s.facts| then 1 else 0)
  {
    var stays := (g: Fact) => IsSession(g) && retain;
    var leaves := (g: Fact) => !(IsSession(g) && retain);
    FilterMember(s.facts, stays, f);
    forall g ensures g in Filter(s.facts, leaves) <==> g in s.facts && leaves(g) { FilterMember(s.facts, leaves, g); }
    SplitSizes(s.facts, stays, leaves);
    if f in s.facts && stays(f) {
      forall g | g in Filter(s.facts, leaves) ensures Key(g) != Key(f) {
        if Key(g) == Key(f) { SameVersion(s.facts, f, g); }
      }
    }
  }

  lemma {:induction false} SplitSizes(facts: seq<Fact>, p: Fact -> bool, q: Fact -> bool)
    requires forall f :: p(f) <==> !q(f)
    ensures |Filter(facts, p)| + |Filter(facts, q)| == |facts|
    decreases |facts|
  {
    if facts != [] { SplitSizes(facts[..|facts| - 1], p, q); }
  }

  /** When a snapshot is accepted, and what is then stored: the records of the snapshot, all current, and the facts
      outside the session, as current as they were. */
  lemma RestoredIs(limits: Limits, s: State, snapshot: seq<Fact>, f: Fact)
    requires Inv(limits, s)
    ensures RestoreFailure(limits, s, snapshot) == None <==>
              && s.run != "" && |snapshot| + |Filter(s.facts, (g: Fact) => g.scope != SessionScope)| <= limits.facts
              && (forall g :: g in snapshot ==> g.scope == SessionScope && Validate(limits, s.run, g) == "")
              && (forall i, j :: 0 <= i < j < |snapshot| ==> Identity(snapshot[i]) != Identity(snapshot[j]))
    ensures RestoreFailure(limits, s, snapshot) != None ==> Restore(limits, s, snapshot) == s
    ensures RestoreFailure(limits, s, snapshot) == None ==>
              var t := Restore(limits, s, snapshot);
              && t.run == s.run && t.seen == s.seen && t.eventOrder == s.eventOrder && t.generation == s.generation + 1
              && (f in t.facts <==> f in snapshot || (f in s.facts && f.scope != SessionScope))
              && (f in snapshot ==> Key(f) !in t.superseded)
              && (f in s.facts && f.scope != SessionScope ==> (Key(f) in t.superseded <==> Key(f) in s.superseded))
  {
    SameOutside(s.facts);
    if RestoreFailure(limits, s, snapshot) == None {
      RecordsFine(limits, s.run, snapshot, 0);
      FilterMember(s.facts, (g: Fact) => !IsSession(g), f);
      if f in snapshot { NotMarked(limits, s, Restore(limits, s, snapshot), f); }
    } else if (forall g :: g in snapshot ==> IsSession(g) && Validate(limits, s.run, g) == "")
              && (forall i, j :: 0 <= i < j < |snapshot| ==> Identity(snapshot[i]) != Identity(snapshot[j])) {
      NoRecordError(limits, s.run, snapshot, 0);
    }
  }

  lemma SameOutside(facts: seq<Fact>)
    ensures Filter(facts, (g: Fact) => g.scope != SessionScope) == Outside(facts)
  {
    FilterSame(facts, (g: Fact) => g.scope != SessionScope, (g: Fact) => !IsSession(g));
  }

  /** The entry points attest what their names say, and only hypotheses come through the general one. */
  lemma Attested(limits: Limits, s: State, path: Path, f: Fact, g: Fact)
    requires ValidLimits(limits) && g in Ingest(limits, s, path, f).facts && g !in s.facts
    requires Find(s.facts, Key(f)) == -1
    ensures g == f.(evidence := match path
                                case AsObservation => RamObservation
                                case AsOutcome => VerifiedOutcome
                                case _ => ModelHypothesis)
  {
  }

  /** A new version stored into a full graph displaces one fact and no other: the first that is not of the session, or
      the first of all when every fact is of the session. */
  lemma DisplacesOne(limits: Limits, s: State, f: Fact) returns (i: nat)
    requires ValidLimits(limits) && |s.facts| == limits.facts && forall g :: g in s.facts ==> Key(g) != Key(f)
    ensures i < |s.facts| && Store(limits, s, f).facts == s.facts[..i] + s.facts[i + 1..] + [f]
    ensures forall k :: 0 <= k < i ==> s.facts[k].scope == SessionScope
    ensures s.facts[i].scope == SessionScope ==>
              i == 0 && forall k :: 0 <= k < |s.facts| ==> s.facts[k].scope == SessionScope
  {
    i := Victim(s.facts);
    assert forall k :: 0 <= k < |s.facts| ==> s.facts[k] in s.facts;
  }
}
