/** What every sequence of ingests, run changes, restores and clears keeps true of the evidence graph, and
    what a session snapshot is worth. */
module KnowledgeInvariant {
  import opened Lists
  import opened KnowledgeGraph
  import opened Wrappers

  // --------------------------------------------------- keys are uniquely readable

  ghost predicate Clean(f: Fact) {
    forall field :: field in RequiredFields(f) ==> field != "" && SEP !in field
  }

  lemma {:induction false} NoErrorMeansClean(limits: Limits, fields: seq<string>)
    requires FirstError(limits, fields) == ""
    ensures forall field :: field in fields ==> field != "" && |field| <= limits.fieldBytes && SEP !in field
  {
    if fields != [] { NoErrorMeansClean(limits, fields[1..]); }
  }

  function FirstSep(w: string): nat {
    if w == "" || w[0] == SEP then 0 else 1 + FirstSep(w[1..])
  }

  lemma {:induction false} FirstSepAt(s: string, u: string)
    requires SEP !in s
    ensures FirstSep(s + [SEP] + u) == |s|
  {
    if s != "" {
      assert (s + [SEP] + u)[1..] == s[1..] + [SEP] + u;
      FirstSepAt(s[1..], u);
    }
  }

  /** A separator-free prefix can be cut off in only one way. */
  lemma Cut(s: string, u: string, t: string, v: string)
    requires SEP !in s && SEP !in t && s + [SEP] + u == t + [SEP] + v
    ensures s == t && u == v
  {
    FirstSepAt(s, u);
    FirstSepAt(t, v);
    var w := s + [SEP] + u;
    assert s == w[..|s|] && t == w[..|t|] && u == w[|s| + 1..] && v == w[|t| + 1..];
  }

  function Rest(f: Fact): string {
    f.subject + [SEP] + (f.relation + [SEP] + f.object_)
  }

  lemma KeyShape(f: Fact)
    ensures KeyText(f) == f.runId + [SEP] + (ScopeName(f.scope) + [SEP] + (f.id + [SEP] + Rest(f)))
    ensures IdentityText(f) == f.runId + [SEP] + (ScopeName(f.scope) + [SEP] + f.id)
  {
  }

  lemma ScopeNames(a: Scope, b: Scope)
    ensures SEP !in ScopeName(a)
    ensures ScopeName(a) == ScopeName(b) ==> a == b
  {
    assert |ScopeName(ObservationScope)| == 11 && |ScopeName(RunScope)| == 3 && |ScopeName(SessionScope)| == 7;
  }

  /** The joined texts of validated facts are equal exactly when the versions (or propositions) are. */
  lemma KeyReadable(a: Fact, b: Fact)
    requires Clean(a) && Clean(b)
    ensures KeyText(a) == KeyText(b) <==> Key(a) == Key(b)
    ensures IdentityText(a) == IdentityText(b) <==> Identity(a) == Identity(b)
  {
    KeyShape(a);
    KeyShape(b);
    ScopeNames(a.scope, b.scope);
    ScopeNames(b.scope, a.scope);
    assert a.runId in RequiredFields(a) && b.runId in RequiredFields(b);
    assert a.id in RequiredFields(a) && b.id in RequiredFields(b);
    assert a.subject in RequiredFields(a) && b.subject in RequiredFields(b);
    assert a.relation in RequiredFields(a) && b.relation in RequiredFields(b);
    if IdentityText(a) == IdentityText(b) {
      Cut(a.runId, ScopeName(a.scope) + [SEP] + a.id, b.runId, ScopeName(b.scope) + [SEP] + b.id);
      Cut(ScopeName(a.scope), a.id, ScopeName(b.scope), b.id);
    }
    if KeyText(a) == KeyText(b) {
      Cut(a.runId, ScopeName(a.scope) + [SEP] + (a.id + [SEP] + Rest(a)), b.runId,
        ScopeName(b.scope) + [SEP] + (b.id + [SEP] + Rest(b)));
      Cut(ScopeName(a.scope), a.id + [SEP] + Rest(a), ScopeName(b.scope), b.id + [SEP] + Rest(b));
      Cut(a.id, Rest(a), b.id, Rest(b));
      Cut(a.subject, a.relation + [SEP] + a.object_, b.subject, b.relation + [SEP] + b.object_);
      Cut(a.relation, a.object_, b.relation, b.object_);
    }
  }

  /** Event keys join run and event by a colon, which both may contain. Two keys agree exactly when run and event do,
      or when the longer run id is the shorter one, a colon and some text with which the other event id begins, again
      before a colon. */
  lemma EventKeysAgree(a: Fact, b: Fact)
    requires |a.runId| >= |b.runId|
    ensures EventKey(a) == EventKey(b) <==>
              || (a.runId == b.runId && a.eventId == b.eventId)
              || exists x: string :: a.runId == b.runId + (":" + x) && b.eventId == x + (":" + a.eventId)
  {
    if EventKey(a) == EventKey(b) {
      if |a.runId| == |b.runId| {
        assert a.runId == EventKey(a)[..|a.runId|] && b.runId == EventKey(b)[..|b.runId|];
        SameRunEvents(a, b);
      } else {
        var x := SplitBetween(a, b);
      }
    }
    if x: string :| a.runId == b.runId + (":" + x) && b.eventId == x + (":" + a.eventId) {
      assert EventKey(a) == b.runId + (":" + (x + (":" + a.eventId)));
    }
  }

  lemma SplitBetween(a: Fact, b: Fact) returns (x: string)
    requires |a.runId| > |b.runId| && EventKey(a) == EventKey(b)
    ensures a.runId == b.runId + (":" + x) && b.eventId == x + (":" + a.eventId)
  {
    var key, n := EventKey(a), |b.runId|;
    x := a.runId[n + 1..];
    assert a.runId == key[..|a.runId|] && b.runId == key[..n] && key[n] == ':';
    assert a.runId == b.runId + (":" + x);
    assert b.eventId == key[n + 1..];
    assert key[n + 1..] == x + (":" + a.eventId);
  }

  /** So event keys are reliable when run ids contain no colon. */
  lemma ColonFreeRuns(a: Fact, b: Fact)
    requires ':' !in a.runId && ':' !in b.runId
    ensures EventKey(a) == EventKey(b) <==> a.runId == b.runId && a.eventId == b.eventId
  {
    if |a.runId| >= |b.runId| { EventKeysAgree(a, b); } else { EventKeysAgree(b, a); }
    assert forall r: string, x: string :: (r + (":" + x))[|r|] == ':';
  }

  /** Within one run the deduplication key identifies the event. */
  lemma SameRunEvents(a: Fact, b: Fact)
    requires a.runId == b.runId
    ensures EventKey(a) == EventKey(b) <==> a.eventId == b.eventId
  {
    assert a.eventId == EventKey(a)[|a.runId| + 1..] && b.eventId == EventKey(b)[|b.runId| + 1..];
  }

  // ------------------------------------------------------------- the invariant

  ghost predicate KeysDistinct(facts: seq<Fact>) {
    forall i, j :: 0 <= i < j < |facts| ==> Key(facts[i]) != Key(facts[j])
  }

  function KeySet(facts: seq<Fact>): set<VersionKey> {
    set f | f in facts :: Key(f)
  }

  ghost predicate Current(facts: seq<Fact>, superseded: set<VersionKey>, i: nat)
    requires i < |facts|
  {
    Key(facts[i]) !in superseded
  }

  /** At most one stored version of a proposition is current, and none is newer. */
  ghost predicate OneCurrent(facts: seq<Fact>, superseded: set<VersionKey>) {
    forall i, j ::
      && 0 <= i < |facts| && 0 <= j < |facts| && i != j
      && Identity(facts[i]) == Identity(facts[j]) && Current(facts, superseded, i) ==>
      !Current(facts, superseded, j) && facts[j].tick <= facts[i].tick
  }

  ghost predicate Belongs(limits: Limits, run: string, f: Fact) {
    Validate(limits, run, f) == "" && (IsSession(f) || f.runId == run)
  }

  /** The stored versions: distinct, marks only on stored ones, at most one current per proposition. */
  ghost predicate Table(facts: seq<Fact>, superseded: set<VersionKey>) {
    KeysDistinct(facts) && superseded <= KeySet(facts) && OneCurrent(facts, superseded)
  }

  ghost predicate AllBelong(limits: Limits, run: string, facts: seq<Fact>) {
    forall f :: f in facts ==> Belongs(limits, run, f)
  }

  ghost predicate Window(limits: Limits, seen: set<string>, order: seq<string>) {
    && |order| <= limits.deduplicationIds
    && (forall i, j :: 0 <= i < j < |order| ==> order[i] != order[j])
    && (forall e :: e in seen <==> e in order)
  }

  ghost predicate Inv(limits: Limits, s: State) {
    && |s.facts| <= limits.facts
    && Table(s.facts, s.superseded)
    && AllBelong(limits, s.run, s.facts)
    && Window(limits, s.seen, s.eventOrder)
  }

  // ------------------------------------------------------------ ingest keeps it

  lemma WitnessKeeps(limits: Limits, s: State, f: Fact)
    requires ValidLimits(limits) && Inv(limits, s) && EventKey(f) !in s.seen
    ensures Inv(limits, Witness(limits, s, f))
    ensures EventKey(f) in Witness(limits, s, f).seen
  {
    var order := s.eventOrder + [EventKey(f)];
    var t := Witness(limits, s, f);
    forall e ensures e in t.seen <==> e in t.eventOrder {
      if |order| > limits.deduplicationIds {
        assert |order| - limits.deduplicationIds == 1;
        assert e in order <==> e == order[0] || e in order[1..];
        assert e in Trimmed(order, limits.deduplicationIds) <==> e == order[0];
      }
    }
  }

  function WithoutAt(facts: seq<Fact>, i: nat): seq<Fact>
    requires i < |facts|
  {
    facts[..i] + facts[i + 1..]
  }

  lemma WithoutMember(facts: seq<Fact>, i: nat, f: Fact)
    requires KeysDistinct(facts) && i < |facts|
    ensures f in WithoutAt(facts, i) <==> f in facts && Key(f) != Key(facts[i])
  {
  }

  /** A fact erased together with its mark leaves a table. */
  lemma TableWithout(facts: seq<Fact>, superseded: set<VersionKey>, i: nat)
    requires Table(facts, superseded) && i < |facts|
    ensures Table(WithoutAt(facts, i), superseded - {Key(facts[i])})
  {
    var rest := WithoutAt(facts, i);
    assert forall k :: 0 <= k < |rest| ==> rest[k] == facts[if k < i then k else k + 1];
    forall key | key in superseded - {Key(facts[i])} ensures key in KeySet(rest) {
      var f :| f in facts && Key(f) == key;
      WithoutMember(facts, i, f);
    }
    forall a, b | 0 <= a < |rest| && 0 <= b < |rest| && a != b && Identity(rest[a]) == Identity(rest[b])
        && Current(rest, superseded - {Key(facts[i])}, a)
      ensures !Current(rest, superseded - {Key(facts[i])}, b) && rest[b].tick <= rest[a].tick
    {
      var x, y := if a < i then a else a + 1, if b < i then b else b + 1;
      assert Current(facts, superseded, x);
    }
  }

  /** A new version arrives: it is current and every other version of its proposition is marked. */
  lemma TableAppend(facts: seq<Fact>, superseded: set<VersionKey>, f: Fact)
    requires Table(facts, superseded) && Key(f) !in KeySet(facts) && !Stale(facts, f)
    ensures Table(facts + [f], superseded + Conflicting(facts, f))
  {
  }

  /** A stored version is observed again: it becomes current in place. */
  lemma TableRefresh(facts: seq<Fact>, superseded: set<VersionKey>, f: Fact, at: nat)
    requires Table(facts, superseded) && at < |facts| && Key(facts[at]) == Key(f) && !Stale(facts, f)
    ensures Table(facts[at := Appended(facts[at], f)], superseded + Conflicting(facts, f) - {Key(f)})
  {
    var all, marks := facts[at := Appended(facts[at], f)], superseded + Conflicting(facts, f) - {Key(f)};
    assert forall k :: 0 <= k < |all| ==> Key(all[k]) == Key(facts[k]);
    assert forall k :: 0 <= k < |all| && k != at && Identity(facts[k]) == Identity(f) ==>
        facts[k] in facts && Key(facts[k]) in Conflicting(facts, f);
    forall key | key in marks ensures key in KeySet(all) {
      var g :| g in facts && Key(g) == key;
      var k :| 0 <= k < |facts| && facts[k] == g;
      assert all[k] in all;
    }
    forall i, j | 0 <= i < |all| && 0 <= j < |all| && i != j && Identity(all[i]) == Identity(all[j]) &&
      Current(all, marks, i)
      ensures !Current(all, marks, j) && all[j].tick <= all[i].tick
    {
      assert Key(all[i]) == Key(facts[i]) && Key(all[j]) == Key(facts[j]);
      if Identity(facts[i]) == Identity(f) {
        assert i == at;
        assert facts[j] in facts;
      } else {
        assert Current(facts, superseded, i);
      }
    }
  }

  /** Evicting first and superseding afterwards marks the same versions. */
  lemma EvictedConflicts(facts: seq<Fact>, superseded: set<VersionKey>, f: Fact, i: nat)
    requires KeysDistinct(facts) && i < |facts| && Key(f) !in KeySet(facts) && !Stale(facts, f)
    ensures var rest := WithoutAt(facts, i);
            && (superseded - {Key(facts[i])}) + Conflicting(rest, f)
               == superseded + Conflicting(facts, f) - {Key(facts[i])}
            && Key(f) !in KeySet(rest) && !Stale(rest, f)
  {
  }

  lemma StoreTable(limits: Limits, s: State, f: Fact)
    requires ValidLimits(limits) && |s.facts| <= limits.facts && Table(s.facts, s.superseded) && !Stale(s.facts, f)
    ensures Table(Store(limits, s, f).facts, Store(limits, s, f).superseded)
    ensures |Store(limits, s, f).facts| <= limits.facts
    ensures forall g :: g in Store(limits, s, f).facts ==>
              g in s.facts || g == f || exists h :: h in s.facts && g == Appended(h, f)
  {
    var at := Find(s.facts, Key(f));
    if at >= 0 {
      TableRefresh(s.facts, s.superseded, f, at);
    } else {
      assert Key(f) !in KeySet(s.facts);
      if |s.facts| == limits.facts {
        var i := Victim(s.facts);
        TableWithout(s.facts, s.superseded, i);
        EvictedConflicts(s.facts, s.superseded, f, i);
        TableAppend(WithoutAt(s.facts, i), s.superseded - {Key(s.facts[i])}, f);
      } else {
        TableAppend(s.facts, s.superseded, f);
      }
    }
  }

  lemma RefreshBelongs(limits: Limits, run: string, previous: Fact, f: Fact)
    requires Belongs(limits, run, previous) && Belongs(limits, run, f)
    requires previous.scope == f.scope && previous.runId == f.runId
    ensures Belongs(limits, run, Appended(previous, f))
  {
    AllFine(limits, previous);
    AllFine(limits, f);
    AllFine(limits, Appended(previous, f));
  }

  /** The field check passes exactly when each of the seven fields passes. */
  lemma AllFine(limits: Limits, f: Fact)
    ensures FirstError(limits, RequiredFields(f)) == "" <==>
              && FieldError(limits, f.id) == "" && FieldError(limits, f.subject) == ""
              && FieldError(limits, f.relation) == ""
              && FieldError(limits, f.object_) == "" && FieldError(limits, f.source) == ""
              && FieldError(limits, f.eventId) == "" && FieldError(limits, f.runId) == ""
  {
    var fields := RequiredFields(f);
    if FirstError(limits, fields) == "" {
      NoErrorMeansClean(limits, fields);
      assert fields[0] in fields && fields[1] in fields && fields[2] in fields && fields[3] in fields;
      assert fields[4] in fields && fields[5] in fields && fields[6] in fields;
    }
    if forall field :: field in fields ==> FieldError(limits, field) == "" { CleanMeansNoError(limits, fields); }
  }

  lemma {:induction false} CleanMeansNoError(limits: Limits, fields: seq<string>)
    requires forall field :: field in fields ==> FieldError(limits, field) == ""
    ensures FirstError(limits, fields) == ""
  {
    if fields != [] { CleanMeansNoError(limits, fields[1..]); }
  }

  lemma StoreKeeps(limits: Limits, s: State, f: Fact)
    requires ValidLimits(limits) && Inv(limits, s) && Belongs(limits, s.run, f) && !Stale(s.facts, f)
    ensures Inv(limits, Store(limits, s, f))
  {
    StoreTable(limits, s, f);
    var t := Store(limits, s, f);
    forall g | g in t.facts ensures Belongs(limits, t.run, g) {
      if g !in s.facts && g != f { RefreshedBelongs(limits, s, f, g); }
    }
  }

  lemma RefreshedBelongs(limits: Limits, s: State, f: Fact, g: Fact)
    requires AllBelong(limits, s.run, s.facts) && Belongs(limits, s.run, f)
    requires g in Store(limits, s, f).facts && g !in s.facts && g != f
    ensures Belongs(limits, s.run, g)
  {
    var at := Find(s.facts, Key(f));
    assert g == Appended(s.facts[at], f);
    assert s.facts[at] in s.facts;
    RefreshBelongs(limits, s.run, s.facts[at], f);
  }

  lemma IngestKeeps(limits: Limits, s: State, f: Fact)
    requires ValidLimits(limits) && Inv(limits, s)
    ensures Inv(limits, IngestRecord(limits, s, f))
  {
    if Rejection(limits, s, f) == "" {
      RejectionNames(limits, s, f);
      WitnessKeeps(limits, s, f);
      StoreKeeps(limits, Witness(limits, s, f), f);
    }
  }

  /** A fact is accepted exactly when it belongs to the run, an observation has a valid expiry, no version of its
      proposition is newer, and its event is not in the window. */
  lemma RejectionNames(limits: Limits, s: State, f: Fact)
    ensures Rejection(limits, s, f) == "" <==>
              && Belongs(limits, s.run, f)
              && (f.scope.ObservationScope? ==> f.expiresAt.Some? && f.tick <= f.expiresAt.value)
              && !Stale(s.facts, f) && EventKey(f) !in s.seen
  {
  }

  // ------------------------------------------- run changes, restore and clear

  /** Keeping some facts, with the marks they had, leaves a table. */
  lemma TableFilter(facts: seq<Fact>, p: Fact -> bool, superseded: set<VersionKey>, marks: set<VersionKey>)
    requires KeysDistinct(facts) && OneCurrent(facts, superseded)
    requires forall f :: f in facts && p(f) ==> (Key(f) in marks <==> Key(f) in superseded)
    ensures var kept := Filter(facts, p);
            && |kept| <= |facts| && KeysDistinct(kept) && OneCurrent(kept, marks)
            && (forall f :: f in kept <==> f in facts && p(f))
  {
    var kept := Filter(facts, p);
    FilterDistinct(facts, p, Key);
    forall f ensures f in kept <==> f in facts && p(f) { FilterMember(facts, p, f); }
    forall i, j | 0 <= i < |kept| && 0 <= j < |kept| && i != j && Identity(kept[i]) == Identity(kept[j]) &&
      Current(kept, marks, i)
      ensures !Current(kept, marks, j) && kept[j].tick <= kept[i].tick
    {
      assert kept[i] in kept && kept[j] in kept;
      var k :| 0 <= k < |facts| && facts[k] == kept[i];
      var l :| 0 <= l < |facts| && facts[l] == kept[j];
      assert Current(facts, superseded, k);
    }
  }

  lemma BeginRunKeeps(limits: Limits, s: State, run: string, retain: bool)
    requires Inv(limits, s) && !BadRunId(limits, run)
    ensures Inv(limits, BeginRun(limits, s, run, retain))
  {
    var t := BeginRun(limits, s, run, retain);
    var stays := (f: Fact) => IsSession(f) && retain;
    var leaves := (f: Fact) => !(IsSession(f) && retain);
    var gone := Filter(s.facts, leaves);
    assert t.facts == Filter(s.facts, stays);
    forall f | f in s.facts && stays(f) ensures Key(f) in t.superseded <==> Key(f) in s.superseded {
      forall g | g in gone ensures Key(g) != Key(f) {
        FilterMember(s.facts, leaves, g);
        var i :| 0 <= i < |s.facts| && s.facts[i] == f;
        var j :| 0 <= j < |s.facts| && s.facts[j] == g;
      }
    }
    TableFilter(s.facts, stays, s.superseded, t.superseded);
    forall key | key in t.superseded ensures key in KeySet(t.facts) {
      var f :| f in s.facts && Key(f) == key;
      FilterMember(s.facts, stays, f);
      FilterMember(s.facts, leaves, f);
    }
  }

  lemma {:induction false} RecordsFine(limits: Limits, run: string, snapshot: seq<Fact>, i: nat)
    requires i <= |snapshot| && RecordError(limits, run, snapshot, i).None?
    ensures forall k :: i <= k < |snapshot| ==> IsSession(snapshot[k]) && Validate(limits, run, snapshot[k]) == ""
    ensures forall j, k :: 0 <= j < k < |snapshot| && i <= k ==> Identity(snapshot[j]) != Identity(snapshot[k])
    decreases |snapshot| - i
  {
    if i < |snapshot| { RecordsFine(limits, run, snapshot, i + 1); }
  }

  lemma RestoreKeeps(limits: Limits, s: State, snapshot: seq<Fact>)
    requires Inv(limits, s)
    ensures Inv(limits, Restore(limits, s, snapshot))
  {
    if RestoreFailure(limits, s, snapshot).None? {
      var t := Restore(limits, s, snapshot);
      var outside := (f: Fact) => !IsSession(f);
      RecordsFine(limits, s.run, snapshot, 0);
      forall f | f in s.facts && outside(f) ensures Key(f) in t.superseded <==> Key(f) in s.superseded {
        assert forall g :: g in s.facts && IsSession(g) ==> Key(g) != Key(f);
      }
      TableFilter(s.facts, outside, s.superseded, t.superseded);
      var kept := Outside(s.facts);
      forall key | key in t.superseded ensures key in KeySet(t.facts) {
        var f :| f in s.facts && Key(f) == key;
        FilterMember(s.facts, outside, f);
        assert f in t.facts;
      }
      forall f | f in snapshot
        ensures Key(f) !in t.superseded && forall g :: g in kept ==> Key(g) != Key(f) && Identity(g) != Identity(f)
      {
        NotMarked(limits, s, t, f);
      }
      RestoredDistinct(limits, s.run, kept, snapshot, t.superseded);
    }
  }

  lemma NotMarked(limits: Limits, s: State, t: State, f: Fact)
    requires Inv(limits, s) && IsSession(f) && Validate(limits, s.run, f) == ""
    requires t.superseded == s.superseded - set g | g in s.facts && IsSession(g) :: Key(g)
    ensures Key(f) !in t.superseded
  {
  }

  lemma RestoredDistinct(limits: Limits, run: string, kept: seq<Fact>, snapshot: seq<Fact>, superseded: set<VersionKey>)
    requires KeysDistinct(kept) && OneCurrent(kept, superseded)
    requires forall k :: 0 <= k < |snapshot| ==> Validate(limits, run, snapshot[k]) == ""
    requires forall j, k :: 0 <= j < k < |snapshot| ==> Identity(snapshot[j]) != Identity(snapshot[k])
    requires forall f :: f in snapshot ==> forall g :: g in kept ==> Key(g) != Key(f) && Identity(g) != Identity(f)
    ensures KeysDistinct(kept + snapshot) && OneCurrent(kept + snapshot, superseded)
  {
    var all := kept + snapshot;
    forall i, j | 0 <= i < j < |all| ensures Key(all[i]) != Key(all[j]) {
      if i >= |kept| {
        assert Identity(snapshot[i - |kept|]) != Identity(snapshot[j - |kept|]);
      } else if j >= |kept| {
        assert all[j] in snapshot && all[i] in kept;
      }
    }
    forall i, j | 0 <= i < j < |all| && |kept| <= j ensures Identity(all[i]) != Identity(all[j]) {
      assert all[j] in snapshot;
      if i < |kept| { assert all[i] in kept; }
    }
    forall i, j | 0 <= i < |all| && 0 <= j < |all| && i != j && Identity(all[i]) == Identity(all[j]) &&
      Current(all, superseded, i)
      ensures !Current(all, superseded, j) && all[j].tick <= all[i].tick
    {
      assert i < |kept| && j < |kept|;
      assert Current(kept, superseded, i);
    }
  }

  /** Every operation keeps the invariant, accepted or refused. */
  lemma ApplyKeeps(limits: Limits, s: State, op: Op)
    requires ValidLimits(limits) && Inv(limits, s)
    ensures Inv(limits, Apply(limits, s, op))
  {
    match op
    case IngestOp(path, f) => IngestKeeps(limits, s, Stamped(path, f));
    case BeginRunOp(run, retain) => if !BadRunId(limits, run) { BeginRunKeeps(limits, s, run, retain); }
    case RestoreOp(snapshot) => RestoreKeeps(limits, s, snapshot);
    case ClearOp =>
  }

  /** The invariant holds after any sequence of operations on a new graph. */
  lemma {:induction false} Reachable(limits: Limits, ops: seq<Op>)
    requires ValidLimits(limits)
    ensures Inv(limits, ApplyAll(limits, Fresh, ops))
    decreases |ops|
  {
    if ops != [] {
      Reachable(limits, ops[..|ops| - 1]);
      ApplyKeeps(limits, ApplyAll(limits, Fresh, ops[..|ops| - 1]), ops[|ops| - 1]);
    }
  }
}
