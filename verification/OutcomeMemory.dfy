/** outcome_memory: bounded evidence per context, with attempts counted once inside a bounded window. The
    object is given by the log of the attempts it accepted. */
module OutcomeMemory {
  import opened Lists
  import opened Experience

  datatype Result = Succeeded | Failed | Unknown

  datatype Attempt = Attempt(context: string, id: string, result: Result, failure: string)

  datatype Evidence = Evidence(successes: nat, failures: nat, unknown: nat, classes: map<string, nat>)

  const NO_EVIDENCE := Evidence(0, 0, 0, map[])

  function ClassOf(a: Attempt): string {
    if a.failure == "" then "unspecified" else a.failure
  }

  function CountOf(classes: map<string, nat>, name: string): nat {
    if name in classes then classes[name] else 0
  }

  function Add(e: Evidence, a: Attempt): Evidence {
    match a.result
    case Succeeded => e.(successes := e.successes + 1)
    case Unknown => e.(unknown := e.unknown + 1)
    case Failed => e.(failures := e.failures + 1,
      classes := e.classes[ClassOf(a) := CountOf(e.classes, ClassOf(a)) + 1])
  }

  function Tally(h: seq<Attempt>): Evidence
    decreases |h|
  {
    if h == [] then NO_EVIDENCE else Add(Tally(h[..|h| - 1]), h[|h| - 1])
  }

  // --------------------------------------------------- what a log leaves in memory

  function Ids(log: seq<Attempt>): (r: seq<string>)
    ensures |r| == |log| && forall i :: 0 <= i < |r| ==> r[i] == log[i].id
  {
    seq(|log|, i requires 0 <= i < |log| => log[i].id)
  }

  /** Contexts remembered, oldest first. */
  function Order(capacity: nat, log: seq<Attempt>): (o: seq<string>)
    requires capacity > 0
    ensures |o| <= capacity && forall i, j :: 0 <= i < j < |o| ==> o[i] != o[j]
    decreases |log|
  {
    if log == [] then []
    else
      var before, context := Order(capacity, log[..|log| - 1]), log[|log| - 1].context;
      if context in before then before
      else (if |before| >= capacity then before[1..] else before) + [context]
  }

  /** The attempts behind a context's evidence: those accepted since the context last entered the memory. */
  function Since(capacity: nat, log: seq<Attempt>, context: string): seq<Attempt>
    requires capacity > 0
    decreases |log|
  {
    if log == [] || context !in Order(capacity, log) then []
    else
      var earlier, last := log[..|log| - 1], log[|log| - 1];
      if last.context != context then Since(capacity, earlier, context)
      else Since(capacity, earlier, context) + [last]
  }

  function Records(capacity: nat, log: seq<Attempt>): map<string, Evidence>
    requires capacity > 0
  {
    map context | context in Order(capacity, log) :: Tally(Since(capacity, log, context))
  }

  class Memory {
    const capacity: nat
    var records: map<string, Evidence>
    var order: seq<string>
    var seen: seq<string>
    ghost var log: seq<Attempt>

    ghost predicate Valid()
      reads this
    {
      && capacity > 0 && order == Order(capacity, log) && records == Records(capacity, log)
      && seen == Newest(Ids(log), capacity * 4) && Accepted(capacity, log)
    }

    constructor (requested: nat)
      ensures Valid() && log == [] && capacity == if requested == 0 then 1 else requested
    {
      capacity := if requested == 0 then 1 else requested;
      records, order, seen, log := map[], [], [], [];
    }

    method Record(a: Attempt) returns (accepted: bool)
      requires Valid()
      modifies this
      ensures Valid() && (accepted <==> a.id !in Newest(Ids(old(log)), capacity * 4))
      ensures log == if accepted then old(log) + [a] else old(log)
    {
      if a.id in seen { return false; }
      See(a);
      Enter(a.context);
      RecordsNext(capacity, log, a);
      AcceptedNext(capacity, log, a);
      records := records[a.context := Add(if a.context in records then records[a.context] else NO_EVIDENCE, a)];
      log := log + [a];
      accepted := true;
    }

    method See(a: Attempt)
      requires Valid()
      modifies this`seen
      ensures seen == Newest(Ids(log + [a]), capacity * 4)
    {
      assert Ids(log + [a]) == Ids(log) + [a.id];
      NewestNext(Ids(log), a.id, capacity * 4);
      seen := seen + [a.id];
      if |seen| > capacity * 4 { seen := seen[1..]; }
    }

    /** A new context displaces the oldest one when the memory is full. */
    method Enter(context: string)
      requires capacity > 0 && order == Order(capacity, log) && records == Records(capacity, log)
      modifies this`records, this`order
      ensures order == Entered(capacity, Order(capacity, log), context)
      ensures records == map c | c in Records(capacity, log) && c in order :: Records(capacity, log)[c]
    {
      if context !in records {
        if |order| >= capacity {
          records := records - {order[0]};
          order := order[1..];
        }
        order := order + [context];
      }
    }
  }

  function Entered(capacity: nat, order: seq<string>, context: string): seq<string>
    requires capacity > 0
  {
    if context in order then order
    else (if |order| >= capacity then order[1..] else order) + [context]
  }

  lemma OrderNext(capacity: nat, log: seq<Attempt>, a: Attempt)
    requires capacity > 0
    ensures Order(capacity, log + [a]) == Entered(capacity, Order(capacity, log), a.context)
    ensures a.context in Order(capacity, log + [a])
  {
    assert (log + [a])[..|log|] == log;
    var before := Order(capacity, log);
    if a.context !in before {
      var kept := if |before| >= capacity then before[1..] else before;
      assert (kept + [a.context])[|kept|] == a.context;
    }
  }

  lemma SinceNext(capacity: nat, log: seq<Attempt>, a: Attempt, context: string)
    requires capacity > 0 && context in Order(capacity, log + [a])
    ensures Since(capacity, log + [a], context)
         == Since(capacity, log, context) + if a.context == context then [a] else []
    ensures context != a.context ==> context in Order(capacity, log)
  {
    OrderNext(capacity, log, a);
    assert (log + [a])[..|log|] == log;
    assert Since(capacity, log, context) + [] == Since(capacity, log, context);
  }

  lemma RecordsNext(capacity: nat, log: seq<Attempt>, a: Attempt)
    requires capacity > 0
    ensures var order := Entered(capacity, Order(capacity, log), a.context);
            var kept := map c | c in Records(capacity, log) && c in order :: Records(capacity, log)[c];
            && order == Order(capacity, log + [a])
            && Records(capacity, log + [a])
               == kept[a.context := Add(if a.context in kept then kept[a.context] else NO_EVIDENCE, a)]
  {
    OrderNext(capacity, log, a);
    forall context | context in Order(capacity, log + [a])
      ensures Since(capacity, log + [a], context)
           == Since(capacity, log, context) + (if a.context == context then [a] else [])
      ensures context != a.context ==> context in Order(capacity, log)
    {
      SinceNext(capacity, log, a, context);
    }
    TallyNext(Since(capacity, log, a.context), a);
  }

  lemma TallyNext(h: seq<Attempt>, a: Attempt)
    ensures Tally(h + [a]) == Add(Tally(h), a)
  {
  }

  // ---------------------------------------------------------------- what it means

  function WithResult(r: Result): Attempt -> bool { (a: Attempt) => a.result == r }

  function WithClass(name: string): Attempt -> bool { (a: Attempt) => a.result == Failed && ClassOf(a) == name }

  function OfContext(context: string): Attempt -> bool { (a: Attempt) => a.context == context }

  /** Evidence is a count of the attempts behind it, by result and by failure class. */
  lemma {:induction false} TallyCounts(h: seq<Attempt>, name: string)
    ensures var e := Tally(h);
            && e.successes == |Filter(h, WithResult(Succeeded))| && e.failures == |Filter(h, WithResult(Failed))|
            && e.unknown == |Filter(h, WithResult(Unknown))| && e.successes + e.failures + e.unknown == |h|
            && CountOf(e.classes, name) == |Filter(h, WithClass(name))|
    decreases |h|
  {
    if h != [] { TallyCounts(h[..|h| - 1], name); }
  }

  /** From attempt number `from` on the context has been in the memory, and before it it was not. */
  ghost predicate EnteredAt(capacity: nat, log: seq<Attempt>, context: string, from: nat)
    requires capacity > 0
  {
    && from < |log| && context !in Order(capacity, log[..from])
    && forall k :: from < k <= |log| ==> context in Order(capacity, log[..k])
  }

  /** The attempts behind a remembered context are all of its attempts accepted since it last entered the memory,
      beginning with the one that brought it in; there is only one such point. */
  lemma {:induction false} SinceIsRecent(capacity: nat, log: seq<Attempt>, context: string) returns (from: nat)
    requires capacity > 0 && context in Order(capacity, log)
    ensures EnteredAt(capacity, log, context, from) && log[from].context == context
    ensures Since(capacity, log, context) == Filter(log[from..], OfContext(context))
    ensures forall other :: EnteredAt(capacity, log, context, other) ==> other == from
    decreases |log|
  {
    if context in Order(capacity, log[..|log| - 1]) {
      from := SinceIsRecent(capacity, log[..|log| - 1], context);
      StaysEntered(capacity, log, context, from);
      SuffixNext(log, from, OfContext(context));
    } else {
      from := |log| - 1;
      JustEntered(capacity, log, context);
    }
    OneEntry(capacity, log, context, from);
  }

  lemma StaysEntered(capacity: nat, log: seq<Attempt>, context: string, from: nat)
    requires capacity > 0 && context in Order(capacity, log)
    requires log != [] && EnteredAt(capacity, log[..|log| - 1], context, from)
    ensures EnteredAt(capacity, log, context, from)
  {
    assert log[..|log|] == log;
    assert forall k :: 0 <= k < |log| ==> log[..k] == log[..|log| - 1][..k];
  }

  lemma JustEntered(capacity: nat, log: seq<Attempt>, context: string)
    requires capacity > 0 && log != []
    requires context in Order(capacity, log) && context !in Order(capacity, log[..|log| - 1])
    ensures EnteredAt(capacity, log, context, |log| - 1) && log[|log| - 1].context == context
    ensures Since(capacity, log, context) == Filter(log[|log| - 1..], OfContext(context))
  {
    var n := |log| - 1;
    assert log == log[..n] + [log[n]] && log[..|log|] == log && log[n..] == [log[n]];
    OrderNext(capacity, log[..n], log[n]);
    NothingSince(capacity, log[..n], context);
    assert [log[n]][..0] == [];
  }

  lemma NothingSince(capacity: nat, log: seq<Attempt>, context: string)
    requires capacity > 0 && context !in Order(capacity, log)
    ensures Since(capacity, log, context) == []
  {
  }

  lemma OneEntry(capacity: nat, log: seq<Attempt>, context: string, from: nat)
    requires capacity > 0 && EnteredAt(capacity, log, context, from)
    ensures forall other :: EnteredAt(capacity, log, context, other) ==> other == from
  {
  }

  lemma SuffixNext(log: seq<Attempt>, from: nat, p: Attempt -> bool)
    requires from < |log|
    ensures Filter(log[from..], p)
         == Filter(log[..|log| - 1][from..], p) + if p(log[|log| - 1]) then [log[|log| - 1]] else []
  {
    var tail := log[from..];
    assert tail[..|tail| - 1] == log[..|log| - 1][from..];
  }

  /** The log of any memory: an accepted attempt is none of the newest 4 * capacity accepted before it. */
  ghost predicate Accepted(capacity: nat, log: seq<Attempt>) {
    forall j :: 0 <= j < |log| ==> Fresh(capacity, log, j)
  }

  ghost predicate Fresh(capacity: nat, log: seq<Attempt>, j: nat)
    requires j < |log|
  {
    log[j].id !in Newest(Ids(log[..j]), capacity * 4)
  }

  lemma AcceptedNext(capacity: nat, log: seq<Attempt>, a: Attempt)
    requires Accepted(capacity, log) && a.id !in Newest(Ids(log), capacity * 4)
    ensures Accepted(capacity, log + [a])
  {
    forall j | 0 <= j < |log| + 1 ensures Fresh(capacity, log + [a], j) {
      assert (log + [a])[..j] == log[..j];
      if j < |log| { assert Fresh(capacity, log, j); } else { assert log[..j] == log; }
    }
  }

  /** Within the window one attempt is one label, even under different contexts. */
  lemma CountedOnce(capacity: nat, log: seq<Attempt>, i: nat, j: nat)
    requires Accepted(capacity, log) && i < j < |log| && j - i <= capacity * 4
    ensures log[i].id != log[j].id
  {
    assert Fresh(capacity, log, j);
    var ids := Ids(log[..j]);
    var newest := Newest(ids, capacity * 4);
    assert newest[i - (j - |newest|)] == ids[i] == log[i].id;
  }
}
