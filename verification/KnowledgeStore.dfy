/** knowledge_graph as the program keeps it: vectors and sets updated in place by loops, each method proved
    to perform one operation of the KnowledgeGraph state machine. Also its query, proved complete. */
module KnowledgeStore {
  import opened Lists
  import opened KnowledgeGraph
  import opened KnowledgeInvariant
  import opened Ranking
  import opened Wrappers

  /** The facts a query may return, in stored order. */
  predicate Matches(s: State, tick: nat, subject: string, relation: string, f: Fact) {
    && Key(f) !in s.superseded
    && !(f.scope.ObservationScope? && (f.expiresAt.None? || tick > f.expiresAt.value))
    && (subject == "" || f.subject == subject)
    && (relation == "" || f.relation == relation)
  }

  function Candidates(s: State, tick: nat, subject: string, relation: string): seq<Fact> {
    Filter(s.facts, (f: Fact) => Matches(s, tick, subject, relation, f))
  }

  function QueryResult(s: State, tick: nat, limit: nat, subject: string, relation: string): seq<Fact> {
    Take(StableSort(Candidates(s, tick, subject, relation)), limit)
  }

  /** A query returns current facts, observations only until they expire, of the subject and relation asked for, never
      two versions of one proposition. They come by priority, then by tick, and what is left out for lack of room
      has no higher priority, and no later tick at the same priority, than anything returned. */
  lemma QueryMeaning(limits: Limits, s: State, tick: nat, limit: nat, subject: string, relation: string)
    requires Inv(limits, s)
    ensures var r := QueryResult(s, tick, limit, subject, relation);
            && |r| <= limit
            && (forall f :: f in r ==>
                  && f in s.facts && Key(f) !in s.superseded
                  && (f.scope.ObservationScope? ==> f.expiresAt.Some? && tick <= f.expiresAt.value)
                  && (subject != "" ==> f.subject == subject) && (relation != "" ==> f.relation == relation))
            && (forall i, j :: 0 <= i < j < |r| ==>
                  && Identity(r[i]) != Identity(r[j])
                  && (r[i].priority > r[j].priority || (r[i].priority == r[j].priority && r[i].tick >= r[j].tick)))
            && (forall f :: && f in s.facts && Key(f) !in s.superseded
                            && (f.scope.ObservationScope? ==> f.expiresAt.Some? && tick <= f.expiresAt.value)
                            && (subject != "" ==> f.subject == subject) && (relation != "" ==> f.relation == relation)
                            && f !in r ==>
                  |r| == limit && forall g :: g in r ==>
                    g.priority > f.priority || (g.priority == f.priority && g.tick >= f.tick))
  {
    var sorted := StableSort(Candidates(s, tick, subject, relation));
    SortedCandidates(s, tick, subject, relation);
    PropositionsDistinct(limits, s, tick, subject, relation);
    TopOfRanked(sorted, limit);
  }

  /** The front of a ranked list is ranked, and nothing left out outranks it. */
  lemma TopOfRanked(sorted: seq<Fact>, limit: nat)
    requires Ranked(sorted)
    ensures var r := Take(sorted, limit);
            && Ranked(r) && |r| <= limit && (|r| < limit ==> r == sorted) && r <= sorted
            && (forall f :: f in r ==> f in sorted)
            && (forall f, g :: f in sorted && f !in r && g in r ==> AtLeast(g, f))
  {
    var r := Take(sorted, limit);
    assert forall k :: 0 <= k < |r| ==> sorted[k] == r[k] && r[k] in r;
    forall f, g | f in sorted && f !in r && g in r ensures AtLeast(g, f) {
      var i :| 0 <= i < |sorted| && sorted[i] == f;
      var j :| 0 <= j < |r| && r[j] == g;
    }
  }

  lemma ConflictingNext(facts: seq<Fact>, i: nat, f: Fact)
    requires i < |facts|
    ensures Conflicting(facts[..i + 1], f)
         == Conflicting(facts[..i], f)
            + if Identity(facts[i]) == Identity(f) && Key(facts[i]) != Key(f) then {Key(facts[i])} else {}
  {
    assert facts[..i + 1] == facts[..i] + [facts[i]];
  }

  lemma LeavesNext(facts: seq<Fact>, i: nat, p: Fact -> bool)
    requires i < |facts|
    ensures p(facts[i]) ==> Filter(facts[..i + 1], p) != []
    ensures !p(facts[i]) ==> Filter(facts[..i + 1], p) == Filter(facts[..i], p)
    ensures KeySet(Filter(facts[..i + 1], p))
         == KeySet(Filter(facts[..i], p)) + if p(facts[i]) then {Key(facts[i])} else {}
  {
    FilterNext(facts, i, p);
    var before := Filter(facts[..i], p);
    assert before + [] == before;
  }

  lemma SortedCandidates(s: State, tick: nat, subject: string, relation: string)
    ensures var sorted := StableSort(Candidates(s, tick, subject, relation));
            && Ranked(sorted)
            && (forall f :: f in sorted <==> f in s.facts && Matches(s, tick, subject, relation, f))
  {
    var p := (f: Fact) => Matches(s, tick, subject, relation, f);
    var candidates := Candidates(s, tick, subject, relation);
    StableSortCorrect(candidates);
    forall f ensures f in StableSort(candidates) <==> f in s.facts && p(f) {
      RearrangedMembers(candidates, StableSort(candidates), f);
      FilterMember(s.facts, p, f);
    }
  }

  lemma PropositionsDistinct(limits: Limits, s: State, tick: nat, subject: string, relation: string)
    requires Inv(limits, s)
    ensures var sorted := StableSort(Candidates(s, tick, subject, relation));
            forall i, j :: 0 <= i < j < |sorted| ==> Identity(sorted[i]) != Identity(sorted[j])
  {
    var p := (f: Fact) => Matches(s, tick, subject, relation, f);
    var candidates := Candidates(s, tick, subject, relation);
    FilterDistinct(s.facts, p, Key);
    forall i, j | 0 <= i < j < |candidates| ensures Identity(candidates[i]) != Identity(candidates[j]) {
      FilterMember(s.facts, p, candidates[i]);
      FilterMember(s.facts, p, candidates[j]);
      var k :| 0 <= k < |s.facts| && s.facts[k] == candidates[i];
      var l :| 0 <= l < |s.facts| && s.facts[l] == candidates[j];
      assert Current(s.facts, s.superseded, k) && Current(s.facts, s.superseded, l);
    }
    SortedSize(candidates);
    PermutedDistinct(candidates, StableSort(candidates));
  }

  /** Rearranging facts about different propositions cannot bring two about the same one together. */
  lemma PermutedDistinct(facts: seq<Fact>, sorted: seq<Fact>)
    requires multiset(sorted) == multiset(facts)
    requires forall i, j :: 0 <= i < j < |facts| ==> Identity(facts[i]) != Identity(facts[j])
    ensures forall i, j :: 0 <= i < j < |sorted| ==> Identity(sorted[i]) != Identity(sorted[j])
  {
    forall i, j | 0 <= i < j < |sorted| ensures Identity(sorted[i]) != Identity(sorted[j]) {
      assert sorted[i] in multiset(facts) && sorted[j] in multiset(facts);
      var a :| 0 <= a < |facts| && facts[a] == sorted[i];
      var b :| 0 <= b < |facts| && facts[b] == sorted[j];
      SingleCopies(facts, sorted[i]);
      if a == b { TwoCopies(sorted, i, j); }
    }
  }

  lemma {:induction false} SingleCopies(facts: seq<Fact>, f: Fact)
    requires forall i, j :: 0 <= i < j < |facts| ==> Identity(facts[i]) != Identity(facts[j])
    ensures multiset(facts)[f] <= 1
  {
    if facts != [] {
      SingleCopies(facts[1..], f);
      assert facts == [facts[0]] + facts[1..];
      assert facts[0] !in facts[1..];
    }
  }

  lemma TwoCopies(facts: seq<Fact>, i: nat, j: nat)
    requires i < j < |facts| && facts[i] == facts[j]
    ensures multiset(facts)[facts[i]] >= 2
  {
    assert facts == facts[..j] + [facts[j]] + facts[j + 1..];
    assert facts[..j][i] in facts[..j];
  }

  class Graph {
    const limits: Limits
    var run: string
    var facts: seq<Fact>
    var seen: set<string>
    var eventOrder: seq<string>
    var superseded: set<VersionKey>
    var generation: nat

    ghost function Model(): State
      reads this
    {
      State(run, facts, seen, eventOrder, superseded, generation)
    }

    constructor (limits: Limits)
      requires ValidLimits(limits)
      ensures this.limits == limits && Model() == Fresh
    {
      this.limits := limits;
      run, facts, seen, eventOrder, superseded, generation := "", [], {}, [], {}, 0;
    }

    /** Facts that do not outlive the run are dropped in one compacting pass. */
    method StartRun(id: string, retain: bool) returns (ok: bool)
      modifies this
      ensures ok <==> !BadRunId(limits, id)
      ensures Model() == Apply(limits, old(Model()), BeginRunOp(id, retain))
    {
      if BadRunId(limits, id) { return false; }
      run := id;
      var changed := Compact(retain);
      seen, eventOrder := {}, [];
      if changed { generation := generation + 1; }
      ok := true;
    }

    method Compact(retain: bool) returns (changed: bool)
      modifies this`facts, this`superseded
      ensures facts == Filter(old(facts), (f: Fact) => IsSession(f) && retain)
      ensures var gone := Filter(old(facts), (f: Fact) => !(IsSession(f) && retain));
              (changed <==> gone != []) && superseded == old(superseded) - KeySet(gone)
    {
      ghost var stays := (f: Fact) => IsSession(f) && retain;
      ghost var leaves := (f: Fact) => !(IsSession(f) && retain);
      ghost var all := facts;
      var out, it := 0, 0;
      changed := false;
      while it < |facts|
        invariant 0 <= out <= it <= |facts| == |all|
        invariant facts[..out] == Filter(all[..it], stays) && facts[it..] == all[it..]
        invariant changed <==> Filter(all[..it], leaves) != []
        invariant superseded == old(superseded) - KeySet(Filter(all[..it], leaves))
      {
        FilterNext(all, it, stays);
        LeavesNext(all, it, leaves);
        MovedDown(facts, all, out, it);
        if !facts[it].scope.SessionScope? || !retain {
          superseded := superseded - {Key(facts[it])};
          changed := true;
        } else {
          facts := facts[out := facts[it]];
          out := out + 1;
        }
        it := it + 1;
      }
      assert all[..it] == all;
      facts := facts[..out];
    }

    lemma MovedDown(now: seq<Fact>, all: seq<Fact>, out: nat, it: nat)
      requires out <= it < |now| == |all| && now[it..] == all[it..]
      ensures now[it] == all[it] && now[it + 1..] == all[it + 1..]
      ensures now[out := now[it]][..out + 1] == now[..out] + [all[it]]
      ensures now[out := now[it]][it + 1..] == all[it + 1..]
    {
      assert now[it..][0] == all[it..][0];
      assert now[it..][1..] == all[it..][1..];
    }

    method IngestFact(path: Path, f: Fact) returns (outcome: Outcome)
      requires ValidLimits(limits) && Inv(limits, Model())
      modifies this
      ensures Model() == Apply(limits, old(Model()), IngestOp(path, f)) && Inv(limits, Model())
      ensures outcome.generation == generation
      ensures outcome.accepted <==>
                && !(path.General? && !f.evidence.ModelHypothesis?)
                && Rejection(limits, old(Model()), Stamped(path, f)) == ""
      ensures !outcome.accepted ==>
                outcome.reason == if path.General? && !f.evidence.ModelHypothesis?
                  then "evidence_requires_attested_ingest_path"
                                  else Rejection(limits, old(Model()), Stamped(path, f))
    {
      ApplyKeeps(limits, Model(), IngestOp(path, f));
      if path.General? && !f.evidence.ModelHypothesis? {
        return Outcome(false, "evidence_requires_attested_ingest_path", generation);
      }
      var fact := Stamped(path, f);
      var reason := CheckRecord(fact);
      if reason != "" { return Outcome(false, reason, generation); }
      RememberEvent(fact);
      var text := StoreFact(fact);
      outcome := Outcome(true, text, generation);
    }

    method CheckRecord(f: Fact) returns (reason: string)
      ensures reason == Rejection(limits, Model(), f)
    {
      var invalid := Validate(limits, run, f);
      if invalid != "" { return invalid; }
      if !IsSession(f) && f.runId != run { return "wrong_run_scope"; }
      if f.scope.ObservationScope? && (f.expiresAt.None? || f.expiresAt.value < f.tick) {
        return "observation_needs_valid_expiry";
      }
      for i := 0 to |facts|
        invariant forall k :: 0 <= k < i ==> !(Identity(facts[k]) == Identity(f) && f.tick < facts[k].tick)
      {
        if Identity(facts[i]) == Identity(f) && f.tick < facts[i].tick { return "stale_evidence_tick"; }
      }
      if EventKey(f) in seen { return "duplicate_event"; }
      reason := "";
    }

    method RememberEvent(f: Fact)
      requires Window(limits, seen, eventOrder)
      modifies this`seen, this`eventOrder
      ensures Model() == Witness(limits, old(Model()), f)
    {
      ghost var all := eventOrder + [EventKey(f)];
      seen := seen + {EventKey(f)};
      eventOrder := eventOrder + [EventKey(f)];
      ForgetOldest(all);
    }

    /** The event window loses its oldest entries, here at most one. */
    method ForgetOldest(ghost all: seq<string>)
      requires eventOrder == all && |all| <= limits.deduplicationIds + 1
      modifies this`seen, this`eventOrder
      ensures eventOrder == Newest(all, limits.deduplicationIds)
      ensures seen == old(seen) - Trimmed(all, limits.deduplicationIds)
    {
      while |eventOrder| > limits.deduplicationIds
        invariant (eventOrder == all && seen == old(seen))
                  || (|all| > limits.deduplicationIds && eventOrder == all[1..] && seen == old(seen) - {all[0]})
        decreases |eventOrder|
      {
        seen := seen - {eventOrder[0]};
        eventOrder := eventOrder[1..];
      }
      if |all| > limits.deduplicationIds {
        assert Trimmed(all, limits.deduplicationIds) == {all[0]};
      }
    }

    /** Look for the version itself and mark every other version of its proposition. */
    method MarkVersions(f: Fact) returns (matching: int)
      modifies this`superseded
      ensures matching == Find(facts, Key(f)) && superseded == old(superseded) + Conflicting(facts, f)
    {
      matching := -1;
      for i := 0 to |facts|
        invariant matching == Find(facts[..i], Key(f))
        invariant superseded == old(superseded) + Conflicting(facts[..i], f)
      {
        assert facts[..i + 1][..i] == facts[..i];
        ConflictingNext(facts, i, f);
        if Identity(facts[i]) == Identity(f) {
          if Key(facts[i]) == Key(f) { matching := i; } else { superseded := superseded + {Key(facts[i])}; }
        }
      }
      assert facts[..|facts|] == facts;
    }

    method StoreFact(f: Fact) returns (text: string)
      requires ValidLimits(limits) && |facts| <= limits.facts
      modifies this`facts, this`superseded, this`generation
      ensures Model() == Store(limits, old(Model()), f)
      ensures text == if Find(old(facts), Key(f)) >= 0 then "evidence_appended" else "fact_ingested"
    {
      var matching := MarkVersions(f);
      if matching >= 0 {
        superseded := superseded - {Key(facts[matching])};
        facts := facts[matching := Appended(facts[matching], f)];
        generation := generation + 1;
        return "evidence_appended";
      }
      if |facts| == limits.facts {
        EvictOne();
      }
      facts := facts + [f];
      generation := generation + 1;
      text := "fact_ingested";
    }

    method EvictOne()
      requires facts != []
      modifies this`facts, this`superseded
      ensures var i := Victim(old(facts));
              && facts == old(facts)[..i] + old(facts)[i + 1..]
              && superseded == old(superseded) - {Key(old(facts)[i])}
    {
      var removable := FindRemovable();
      superseded := superseded - {Key(facts[removable])};
      facts := facts[..removable] + facts[removable + 1..];
    }

    /** find_if for a fact outside the session, else begin(). */
    method FindRemovable() returns (at: nat)
      requires facts != []
      ensures at == Victim(facts)
    {
      at := 0;
      while at < |facts| && IsSession(facts[at])
        invariant 0 <= at <= |facts| && forall k :: 0 <= k < at ==> IsSession(facts[k])
      {
        at := at + 1;
      }
      if at == |facts| {
        at := 0;
      } else {
        FirstOutsideIs(facts, 0, at);
      }
    }

    method Query(tick: nat, limit: nat, subject: string, relation: string) returns (result: seq<Fact>)
      ensures result == QueryResult(Model(), tick, limit, subject, relation)
    {
      if limit == 0 { return []; }
      var candidates: seq<Fact> := [];
      ghost var s := Model();
      ghost var p := (f: Fact) => Matches(s, tick, subject, relation, f);
      for i := 0 to |facts|
        invariant candidates == Filter(facts[..i], p)
      {
        FilterNext(facts, i, p);
        var f := facts[i];
        if Key(f) in superseded { continue; }
        if f.scope.ObservationScope? && (f.expiresAt.None? || tick > f.expiresAt.value) { continue; }
        if subject != "" && f.subject != subject { continue; }
        if relation != "" && f.relation != relation { continue; }
        candidates := candidates + [f];
      }
      assert facts[..|facts|] == facts;
      var sorted := StableSort(candidates);
      var count := if limit < |sorted| then limit else |sorted|;
      result := [];
      for i := 0 to count
        invariant result == sorted[..i]
      {
        result := result + [sorted[i]];
      }
    }

    method Snapshot() returns (result: seq<Fact>)
      ensures result == SessionSnapshot(Model())
    {
      result := [];
      ghost var s := Model();
      ghost var p := (f: Fact) => IsSession(f) && Key(f) !in s.superseded;
      for i := 0 to |facts|
        invariant result == Filter(facts[..i], p)
      {
        FilterNext(facts, i, p);
        if facts[i].scope.SessionScope? && Key(facts[i]) !in superseded { result := result + [facts[i]]; }
      }
      assert facts[..|facts|] == facts;
    }

    /** Every record is checked before anything changes. */
    method RestoreSnapshot(snapshot: seq<Fact>) returns (failure: Option<RestoreError>)
      modifies this
      ensures failure == RestoreFailure(limits, old(Model()), snapshot)
      ensures Model() == Apply(limits, old(Model()), RestoreOp(snapshot))
    {
      if run == "" { return Some(RunNotBegun); }
      var retained := 0;
      ghost var outside := (f: Fact) => !IsSession(f);
      for i := 0 to |facts|
        invariant Model() == old(Model()) && retained == |Filter(facts[..i], outside)|
      {
        FilterNext(facts, i, outside);
        if !facts[i].scope.SessionScope? { retained := retained + 1; }
      }
      assert facts[..|facts|] == facts;
      if |snapshot| + retained > limits.facts { return Some(TooMany); }
      failure := CheckRecords(snapshot);
      if failure.Some? { return; }
      ReplaceSession(snapshot);
    }

    method CheckRecords(snapshot: seq<Fact>) returns (failure: Option<RestoreError>)
      ensures failure == RecordError(limits, run, snapshot, 0)
    {
      var identities: set<IdentityKey> := {};
      for i := 0 to |snapshot|
        invariant RecordError(limits, run, snapshot, 0) == RecordError(limits, run, snapshot, i)
        invariant forall id :: id in identities <==> exists j :: 0 <= j < i && Identity(snapshot[j]) == id
      {
        if !IsSession(snapshot[i]) { return Some(NotSession); }
        var invalid := Validate(limits, run, snapshot[i]);
        if invalid != "" { return Some(InvalidFact(invalid)); }
        if Identity(snapshot[i]) in identities { return Some(DuplicateIdentity); }
        identities := identities + {Identity(snapshot[i])};
      }
      failure := None;
    }

    method ReplaceSession(snapshot: seq<Fact>)
      modifies this`facts, this`superseded, this`generation
      ensures facts == Outside(old(facts)) + snapshot && generation == old(generation) + 1
      ensures superseded == old(superseded) - set f | f in old(facts) && IsSession(f) :: Key(f)
    {
      ghost var outside := (f: Fact) => !IsSession(f);
      for i := 0 to |facts|
        invariant facts == old(facts) && generation == old(generation)
        invariant superseded == old(superseded) - set f | f in facts[..i] && IsSession(f) :: Key(f)
      {
        assert facts[..i + 1] == facts[..i] + [facts[i]];
        if facts[i].scope.SessionScope? { superseded := superseded - {Key(facts[i])}; }
      }
      assert facts[..|facts|] == facts;
      var kept: seq<Fact> := [];
      for i := 0 to |facts|
        invariant facts == old(facts) && generation == old(generation) && kept == Filter(facts[..i], outside)
        invariant superseded == old(superseded) - set f | f in facts && IsSession(f) :: Key(f)
      {
        FilterNext(facts, i, outside);
        if !facts[i].scope.SessionScope? { kept := kept + [facts[i]]; }
      }
      assert facts[..|facts|] == facts;
      facts := kept + snapshot;
      generation := generation + 1;
    }

    method ClearAll()
      modifies this
      ensures Model() == Apply(limits, old(Model()), ClearOp)
    {
      facts, seen, eventOrder, superseded, run := [], {}, [], {}, "";
      generation := generation + 1;
    }
  }

  lemma {:induction false} FirstOutsideIs(facts: seq<Fact>, from: nat, at: nat)
    requires from <= at < |facts| && !IsSession(facts[at]) && forall k :: from <= k < at ==> IsSession(facts[k])
    ensures FirstOutside(facts, from) == at
    decreases at - from
  {
    if from < at { FirstOutsideIs(facts, from + 1, at); }
  }
}
