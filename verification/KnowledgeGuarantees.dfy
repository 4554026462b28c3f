/** What the evidence graph promises its users: a session can always be saved and restored, evidence never
    weakens, hypotheses stay hypotheses, and an accepted fact is the current one. */
module KnowledgeGuarantees {
  import opened Lists
  import opened KnowledgeGraph
  import opened KnowledgeInvariant
  import opened Wrappers

  // ------------------------------------------------------- snapshot and restore

  lemma {:induction false} DisjointFilters(facts: seq<Fact>, p: Fact -> bool, q: Fact -> bool)
    requires forall f :: f in facts ==> !(p(f) && q(f))
    ensures |Filter(facts, p)| + |Filter(facts, q)| <= |facts|
    decreases |facts|
  {
    if facts != [] {
      assert facts[|facts| - 1] in facts;
      DisjointFilters(facts[..|facts| - 1], p, q);
    }
  }

  /** The session facts taken by a snapshot are valid, and no two are about the same proposition. */
  lemma SnapshotFacts(limits: Limits, s: State)
    requires Inv(limits, s)
    ensures var snapshot := SessionSnapshot(s);
            && (forall f :: f in snapshot <==> f in s.facts && IsSession(f) && Key(f) !in s.superseded)
            && (forall i, j :: 0 <= i < j < |snapshot| ==> Identity(snapshot[i]) != Identity(snapshot[j]))
  {
    var saved := (f: Fact) => IsSession(f) && Key(f) !in s.superseded;
    var snapshot := SessionSnapshot(s);
    forall f ensures f in snapshot <==> f in s.facts && saved(f) { FilterMember(s.facts, saved, f); }
    FilterDistinct(s.facts, saved, Key);
    forall i, j | 0 <= i < j < |snapshot| ensures Identity(snapshot[i]) != Identity(snapshot[j]) {
      assert snapshot[i] in snapshot && snapshot[j] in snapshot;
      var k :| 0 <= k < |s.facts| && s.facts[k] == snapshot[i];
      var l :| 0 <= l < |s.facts| && s.facts[l] == snapshot[j];
      assert Current(s.facts, s.superseded, k) && Current(s.facts, s.superseded, l);
    }
  }

  lemma {:induction false} NoRecordError(limits: Limits, run: string, snapshot: seq<Fact>, i: nat)
    requires i <= |snapshot|
    requires forall f :: f in snapshot ==> IsSession(f) && Validate(limits, run, f) == ""
    requires forall j, k :: 0 <= j < k < |snapshot| ==> Identity(snapshot[j]) != Identity(snapshot[k])
    ensures RecordError(limits, run, snapshot, i).None?
    decreases |snapshot| - i
  {
    if i < |snapshot| {
      assert snapshot[i] in snapshot;
      NoRecordError(limits, run, snapshot, i + 1);
    }
  }

  /** A graph with a run started can restore its own snapshot: it is never refused, and saving again
      yields the same records. */
  lemma SnapshotRoundTrip(limits: Limits, s: State)
    requires Inv(limits, s) && s.run != ""
    ensures RestoreFailure(limits, s, SessionSnapshot(s)) == None
    ensures SessionSnapshot(Restore(limits, s, SessionSnapshot(s))) == SessionSnapshot(s)
  {
    var snapshot := SessionSnapshot(s);
    SnapshotFacts(limits, s);
    DisjointFilters(s.facts, (f: Fact) => IsSession(f) && Key(f) !in s.superseded, (f: Fact) => !IsSession(f));
    NoRecordError(limits, s.run, snapshot, 0);
    SavedAgain(limits, s, snapshot);
  }

  /** What restore puts in is what the next snapshot takes out, for any snapshot it accepts. */
  lemma SavedAgain(limits: Limits, s: State, snapshot: seq<Fact>)
    requires Inv(limits, s) && RestoreFailure(limits, s, snapshot) == None
    ensures SessionSnapshot(Restore(limits, s, snapshot)) == snapshot
  {
    var t := Restore(limits, s, snapshot);
    var saved := (f: Fact) => IsSession(f) && Key(f) !in t.superseded;
    RecordsFine(limits, s.run, snapshot, 0);
    forall f | f in snapshot ensures saved(f) { NotMarked(limits, s, t, f); }
    forall f | f in Outside(s.facts) ensures !saved(f) { FilterMember(s.facts, (f: Fact) => !IsSession(f), f); }
    FilterConcat(Outside(s.facts), snapshot, saved);
    FilterNone(Outside(s.facts), saved);
    FilterAll(snapshot, saved);
  }

  /** In particular in every reachable state. */
  lemma ReachableRoundTrip(limits: Limits, ops: seq<Op>)
    requires ValidLimits(limits)
    ensures var s := ApplyAll(limits, Fresh, ops);
            s.run != "" ==>
              && RestoreFailure(limits, s, SessionSnapshot(s)) == None
              && SessionSnapshot(Restore(limits, s, SessionSnapshot(s))) == SessionSnapshot(s)
  {
    Reachable(limits, ops);
    var s := ApplyAll(limits, Fresh, ops);
    if s.run != "" { SnapshotRoundTrip(limits, s); }
  }

  // ------------------------------------------------------------------- evidence

  /** An accepted restore whose snapshot records a stored version with weaker evidence than is stored. */
  ghost predicate Weakens(limits: Limits, s: State, op: Op, key: VersionKey) {
    && op.RestoreOp? && RestoreFailure(limits, s, op.snapshot) == None
    && exists f, g :: f in s.facts && g in op.snapshot && Key(f) == key && Key(g) == key
                        && EvidenceRank(g.evidence) < EvidenceRank(f.evidence)
  }

  /** Across any operation, a version that stays stored loses evidence rank exactly when the operation is such
      a restore. */
  lemma EvidenceDropsIff(limits: Limits, s: State, op: Op, f: Fact, g: Fact)
    requires ValidLimits(limits) && Inv(limits, s)
    requires f in s.facts && g in Apply(limits, s, op).facts && Key(f) == Key(g)
    ensures EvidenceRank(g.evidence) < EvidenceRank(f.evidence) <==> Weakens(limits, s, op, Key(f))
  {
    match op
    case IngestOp(path, fact) =>
      if g in s.facts {
        SameVersion(s.facts, f, g);
      } else {
        StoredRank(limits, Witness(limits, s, Stamped(path, fact)), Stamped(path, fact), f, g);
      }
    case BeginRunOp(run, retain) =>
      if !BadRunId(limits, run) { FilterMember(s.facts, (x: Fact) => IsSession(x) && retain, g); }
      SameVersion(s.facts, f, g);
    case RestoreOp(snapshot) => RestoredRank(limits, s, snapshot, f, g);
    case ClearOp =>
  }

  lemma RestoredRank(limits: Limits, s: State, snapshot: seq<Fact>, f: Fact, g: Fact)
    requires Inv(limits, s) && f in s.facts && g in Restore(limits, s, snapshot).facts && Key(f) == Key(g)
    ensures EvidenceRank(g.evidence) < EvidenceRank(f.evidence) <==> Weakens(limits, s, RestoreOp(snapshot), Key(f))
  {
    if RestoreFailure(limits, s, snapshot) == None {
      var t := Restore(limits, s, snapshot);
      RestoreKeeps(limits, s, snapshot);
      FilterMember(s.facts, (x: Fact) => !IsSession(x), g);
      forall h, k | h in s.facts && k in snapshot && Key(h) == Key(f) && Key(k) == Key(f) ensures h == f && k == g {
        SameVersion(s.facts, h, f);
        assert k in t.facts;
        SameVersion(t.facts, k, g);
      }
      if g in s.facts { SameVersion(s.facts, f, g); }
    } else {
      SameVersion(s.facts, f, g);
    }
  }

  ghost function StateAt(limits: Limits, ops: seq<Op>, k: nat): State
    requires k <= |ops|
  {
    ApplyAll(limits, Fresh, ops[..k])
  }

  lemma StateNext(limits: Limits, ops: seq<Op>, k: nat)
    requires k < |ops|
    ensures StateAt(limits, ops, 0) == Fresh
    ensures StateAt(limits, ops, k + 1) == Apply(limits, StateAt(limits, ops, k), ops[k])
  {
    assert ops[..k + 1][..k] == ops[..k];
  }

  /** The evidence rank of a stored version. */
  ghost function RankOf(facts: seq<Fact>, key: VersionKey): nat
    requires key in KeySet(facts)
  {
    var f :| f in facts && Key(f) == key;
    EvidenceRank(f.evidence)
  }

  ghost predicate StaysStored(limits: Limits, ops: seq<Op>, key: VersionKey, first: nat, last: nat)
    requires first <= last <= |ops|
  {
    forall k :: first <= k <= last ==> key in KeySet(StateAt(limits, ops, k).facts)
  }

  /** The rank of a version stored before and after step k of a run falls in that step. */
  ghost predicate Falls(limits: Limits, ops: seq<Op>, key: VersionKey, k: nat)
    requires k < |ops|
  {
    var before, after := StateAt(limits, ops, k).facts, StateAt(limits, ops, k + 1).facts;
    key in KeySet(before) && key in KeySet(after) && RankOf(after, key) < RankOf(before, key)
  }

  lemma OneStep(limits: Limits, ops: seq<Op>, key: VersionKey, k: nat)
    requires ValidLimits(limits) && k < |ops|
    requires key in KeySet(StateAt(limits, ops, k).facts) && key in KeySet(StateAt(limits, ops, k + 1).facts)
    ensures Falls(limits, ops, key, k) <==> Weakens(limits, StateAt(limits, ops, k), ops[k], key)
  {
    var s, t := StateAt(limits, ops, k), StateAt(limits, ops, k + 1);
    StateNext(limits, ops, k);
    Reachable(limits, ops[..k]);
    Reachable(limits, ops[..k + 1]);
    var f :| f in s.facts && Key(f) == key && EvidenceRank(f.evidence) == RankOf(s.facts, key);
    var g :| g in t.facts && Key(g) == key && EvidenceRank(g.evidence) == RankOf(t.facts, key);
    EvidenceDropsIff(limits, s, ops[k], f, g);
  }

  /** Over any run of ingests, run changes, restores and clears, while a version stays stored its evidence rank never
      drops unless some accepted restore on the way brings back the version with weaker evidence than was stored. */
  lemma {:induction false} EvidenceNeverDrops(limits: Limits, ops: seq<Op>, key: VersionKey, first: nat, last: nat)
    requires ValidLimits(limits) && first <= last <= |ops| && StaysStored(limits, ops, key, first, last)
    requires forall k :: first <= k < last ==> !Weakens(limits, StateAt(limits, ops, k), ops[k], key)
    ensures RankOf(StateAt(limits, ops, first).facts, key) <= RankOf(StateAt(limits, ops, last).facts, key)
    decreases last
  {
    if first < last {
      EvidenceNeverDrops(limits, ops, key, first, last - 1);
      OneStep(limits, ops, key, last - 1);
    }
  }

  /** And that proviso is exact: the rank falls at some step of the run if and only if there is such a restore. */
  lemma EvidenceFallsIff(limits: Limits, ops: seq<Op>, key: VersionKey, first: nat, last: nat)
    requires ValidLimits(limits) && first <= last <= |ops| && StaysStored(limits, ops, key, first, last)
    ensures (exists k :: first <= k < last && Falls(limits, ops, key, k))
       <==> exists k :: first <= k < last && Weakens(limits, StateAt(limits, ops, k), ops[k], key)
  {
    forall k | first <= k < last
      ensures Falls(limits, ops, key, k) <==> Weakens(limits, StateAt(limits, ops, k), ops[k], key)
    {
      OneStep(limits, ops, key, k);
    }
  }

  /** A graph that holds one session fact accepts it back from a snapshot with weaker evidence. */
  lemma AcceptsWeaker(limits: Limits, s: State, f: Fact)
    requires ValidLimits(limits) && s.facts == [f] && s.run != "" && IsSession(f) && Validate(limits, s.run, f) == ""
    ensures var weak := f.(evidence := ModelHypothesis);
            RestoreFailure(limits, s, [weak]) == None && Restore(limits, s, [weak]).facts == [weak]
  {
    var weak := f.(evidence := ModelHypothesis);
    assert RequiredFields(weak) == RequiredFields(f);
    assert Outside([f]) == [];
    assert RecordError(limits, s.run, [weak], 1) == None;
  }

  lemma FirstFact(limits: Limits, s: State, f: Fact)
    requires ValidLimits(limits) && s == Fresh.(run := s.run) && IsSession(f) && Validate(limits, s.run, f) == ""
    ensures Rejection(limits, s, f) == "" && IngestRecord(limits, s, f).facts == [f]
    ensures IngestRecord(limits, s, f).run == s.run && IngestRecord(limits, s, f).seen == {EventKey(f)}
  {
    var t := Witness(limits, s, f);
    assert t.eventOrder == [EventKey(f)] && t.facts == [];
  }

  lemma BeginFresh(limits: Limits, run: string)
    requires !BadRunId(limits, run)
    ensures BeginRun(limits, Fresh, run, true) == Fresh.(run := run)
  {
  }

  /** Runs on which the rank falls, for every session fact: a verified outcome comes back from a snapshot as a mere
      hypothesis. */
  lemma RestoreWeakens(limits: Limits, run: string, f: Fact)
    requires ValidLimits(limits) && !BadRunId(limits, run)
    requires IsSession(f) && f.evidence.VerifiedOutcome? && Validate(limits, run, f) == ""
    ensures var weak := f.(evidence := ModelHypothesis);
            var ops := [BeginRunOp(run, true), IngestOp(AsOutcome, f), RestoreOp([weak])];
            && StateAt(limits, ops, 2).facts == [f] && StateAt(limits, ops, 3).facts == [weak]
            && Key(weak) == Key(f) && EvidenceRank(weak.evidence) < EvidenceRank(f.evidence)
  {
    var ops := [BeginRunOp(run, true), IngestOp(AsOutcome, f), RestoreOp([f.(evidence := ModelHypothesis)])];
    StateNext(limits, ops, 0);
    StateNext(limits, ops, 1);
    StateNext(limits, ops, 2);
    assert StateAt(limits, ops, 1) == Fresh.(run := run) by { BeginFresh(limits, run); }
    RecordedThenWeakened(limits, StateAt(limits, ops, 1), f);
  }

  lemma RecordedThenWeakened(limits: Limits, s: State, f: Fact)
    requires ValidLimits(limits) && s == Fresh.(run := s.run) && s.run != ""
    requires IsSession(f) && f.evidence.VerifiedOutcome? && Validate(limits, s.run, f) == ""
    ensures var t := Apply(limits, s, IngestOp(AsOutcome, f));
            var weak := f.(evidence := ModelHypothesis);
            t.facts == [f] && Apply(limits, t, RestoreOp([weak])).facts == [weak]
  {
    FirstFact(limits, s, f);
    assert Stamped(AsOutcome, f) == f;
    AcceptsWeaker(limits, IngestRecord(limits, s, f), f);
  }

  lemma StoredRank(limits: Limits, s: State, fact: Fact, f: Fact, g: Fact)
    requires ValidLimits(limits) && |s.facts| <= limits.facts && Table(s.facts, s.superseded) && !Stale(s.facts, fact)
    requires f in s.facts && g in Store(limits, s, fact).facts && g !in s.facts && Key(f) == Key(g)
    ensures EvidenceRank(g.evidence) >= EvidenceRank(f.evidence)
  {
    StoreTable(limits, s, fact);
    var at := Find(s.facts, Key(fact));
    if at >= 0 {
      assert s.facts[at] in s.facts;
      if Key(g) == Key(fact) { SameVersion(s.facts, f, s.facts[at]); }
    }
    assert forall k :: 0 <= k < |s.facts| ==> s.facts[k] in s.facts;
  }

  lemma SameVersion(facts: seq<Fact>, f: Fact, g: Fact)
    requires KeysDistinct(facts) && f in facts && g in facts && Key(f) == Key(g)
    ensures f == g
  {
  }

  ghost predicate OnlyHypotheses(facts: seq<Fact>) {
    forall f :: f in facts ==> f.evidence.ModelHypothesis?
  }

  /** Operations a caller holding no attested evidence can make. */
  ghost predicate Unattested(op: Op) {
    match op
    case IngestOp(path, _) => path.General? || path.AsHypothesis?
    case RestoreOp(snapshot) => OnlyHypotheses(snapshot)
    case _ => true
  }

  /** Model output stays a hypothesis: without an attested ingest, no fact ever carries stronger evidence,
      whatever the enum fields of the submitted records say. */
  lemma {:induction false} HypothesesStay(limits: Limits, ops: seq<Op>)
    requires ValidLimits(limits) && forall i :: 0 <= i < |ops| ==> Unattested(ops[i])
    ensures OnlyHypotheses(ApplyAll(limits, Fresh, ops).facts)
    decreases |ops|
  {
    if ops != [] {
      var before := ops[..|ops| - 1];
      HypothesesStay(limits, before);
      Reachable(limits, before);
      var s, op := ApplyAll(limits, Fresh, before), ops[|ops| - 1];
      assert Unattested(op);
      match op
      case IngestOp(path, fact) =>
        var f := Stamped(path, fact);
        if Apply(limits, s, op) != s {
          RejectionNames(limits, s, f);
          StoreTable(limits, Witness(limits, s, f), f);
        }
      case BeginRunOp(run, retain) =>
        if !BadRunId(limits, run) {
          forall f | f in BeginRun(limits, s, run, retain).facts ensures f in s.facts {
            FilterMember(s.facts, (f: Fact) => IsSession(f) && retain, f);
          }
        }
      case RestoreOp(snapshot) =>
        forall f | f in Outside(s.facts) ensures f in s.facts { FilterMember(s.facts, (f: Fact) => !IsSession(f), f); }
      case ClearOp =>
    }
  }

  /** An accepted fact is stored, current, and carries the submitted tick and expiry; a refused one
      changes nothing at all. */
  lemma AcceptedIsCurrent(limits: Limits, s: State, f: Fact)
    requires ValidLimits(limits) && Inv(limits, s)
    ensures Rejection(limits, s, f) != "" ==> IngestRecord(limits, s, f) == s
    ensures Rejection(limits, s, f) == "" ==>
              var t := IngestRecord(limits, s, f);
              && t.generation == s.generation + 1
              && exists g :: g in t.facts && Key(g) == Key(f) && Key(g) !in t.superseded
                   && g.tick == f.tick && g.expiresAt == f.expiresAt && g.priority >= f.priority
                   && EvidenceRank(g.evidence) >= EvidenceRank(f.evidence)
  {
    if Rejection(limits, s, f) == "" {
      var t := IngestRecord(limits, s, f);
      var at := Find(s.facts, Key(f));
      if at >= 0 {
        assert t.facts[at] in t.facts;
        assert t.facts[at] == Appended(s.facts[at], f);
      } else {
        assert t.facts[|t.facts| - 1] == f && f in t.facts;
        NewKeyUnmarked(s, f);
      }
    }
  }

  lemma NewKeyUnmarked(s: State, f: Fact)
    requires s.superseded <= KeySet(s.facts) && Find(s.facts, Key(f)) == -1
    ensures Key(f) !in s.superseded
  {
  }

  /** Returning to an earlier value (A, then B, then A) leaves exactly A current. */
  lemma ReturningValue(limits: Limits, s: State, a: Fact, b: Fact, again: Fact)
    requires ValidLimits(limits) && Inv(limits, s) && limits.facts >= 2
    requires Identity(a) == Identity(b) == Identity(again) && Key(a) == Key(again) && Key(a) != Key(b)
    requires Rejection(limits, s, a) == ""
    requires var t := IngestRecord(limits, s, a);
             && Rejection(limits, t, b) == "" && Rejection(limits, IngestRecord(limits, t, b), again) == ""
    ensures var u := IngestRecord(limits, IngestRecord(limits, IngestRecord(limits, s, a), b), again);
            && (forall g :: g in u.facts && Identity(g) == Identity(a) && Key(g) !in u.superseded ==> Key(g) == Key(a))
            && (exists g :: g in u.facts && Key(g) == Key(a) && Key(g) !in u.superseded)
  {
    var t := IngestRecord(limits, s, a);
    var v := IngestRecord(limits, t, b);
    IngestKeeps(limits, s, a);
    IngestKeeps(limits, t, b);
    OnlyTheNewest(limits, v, again);
  }

  /** After an ingest the version ingested is the only current one of its proposition, and none has a later tick. */
  lemma OnlyTheNewest(limits: Limits, s: State, f: Fact)
    requires ValidLimits(limits) && Inv(limits, s) && Rejection(limits, s, f) == ""
    ensures var t := IngestRecord(limits, s, f);
            && (forall g :: g in t.facts && Identity(g) == Identity(f) && Key(g) !in t.superseded ==> Key(g) == Key(f))
            && (forall g :: g in t.facts && Identity(g) == Identity(f) ==> g.tick <= f.tick)
            && (exists g :: g in t.facts && Key(g) == Key(f) && Key(g) !in t.superseded && g.tick == f.tick)
  {
    var t := IngestRecord(limits, s, f);
    AcceptedIsCurrent(limits, s, f);
    IngestKeeps(limits, s, f);
    var h :| h in t.facts && Key(h) == Key(f) && Key(h) !in t.superseded && h.tick == f.tick;
    forall g | g in t.facts && Identity(g) == Identity(f)
      ensures g.tick <= f.tick && (Key(g) !in t.superseded ==> Key(g) == Key(f))
    {
      CurrentIsNewest(t, h, g);
    }
  }

  lemma CurrentIsNewest(t: State, current: Fact, g: Fact)
    requires Table(t.facts, t.superseded) && current in t.facts && Key(current) !in t.superseded
    requires g in t.facts && Identity(g) == Identity(current)
    ensures g.tick <= current.tick && (Key(g) !in t.superseded ==> g == current)
  {
    var i :| 0 <= i < |t.facts| && t.facts[i] == current;
    var j :| 0 <= j < |t.facts| && t.facts[j] == g;
    assert Current(t.facts, t.superseded, i);
    if i == j { assert g == current; }
  }
}
