/** The first-in-first-out head cache of the Laya backends: its operations, the object that updates them in
    place, and the callers of src/laya.cpp that look up and insert in separate critical sections. */
module HeadCache {
  import opened Wrappers
  import opened LengthPrefix

  datatype Head = Head(ids: seq<int>, markers: seq<int>)

  datatype Limits = Limits(entries: nat, bytes: nat)

  datatype Slot = Slot(key: string, bytes: nat)

  /** order lists keys from oldest to newest insertion. */
  datatype Store = Store(limits: Limits, cache: map<string, Head>, order: seq<Slot>, cached: int)

  function Empty(limits: Limits): Store {
    Store(limits, map[], [], 0)
  }

  predicate Cacheable(limits: Limits, key: string) {
    limits.entries != 0 && |key| <= limits.bytes
  }

  predicate Crowded(s: Store, bytes: nat) {
    s.order != [] && (|s.cache| >= s.limits.entries || s.cached > s.limits.bytes - bytes)
  }

  function DropOldest(s: Store): Store
    requires s.order != []
  {
    s.(order := s.order[1..], cache := s.cache - {s.order[0].key}, cached := s.cached - s.order[0].bytes)
  }

  function MakeRoom(s: Store, bytes: nat): Store
    decreases |s.order|
  {
    if Crowded(s, bytes) then MakeRoom(DropOldest(s), bytes) else s
  }

  function Append(s: Store, key: string, head: Head, bytes: nat): Store {
    s.(order := s.order + [Slot(key, bytes)], cache := s.cache[key := head], cached := s.cached + bytes)
  }

  /** The insertion of src/laya.cpp, which looks for the key again. */
  function Insert(s: Store, key: string, head: Head, bytes: nat): Store {
    if bytes <= s.limits.bytes && key !in s.cache then Append(MakeRoom(s, bytes), key, head, bytes) else s
  }

  /** The insertion of src/laya_native.cpp, which does not. */
  function NativeInsert(s: Store, key: string, head: Head, bytes: nat): Store {
    if bytes <= s.limits.bytes then Append(MakeRoom(s, bytes), key, head, bytes) else s
  }

  class HeadStore {
    const limits: Limits
    var headCache: map<string, Head>
    var cacheOrder: seq<Slot>
    var cachedBytes: int
    var hits: nat
    var misses: nat

    ghost function Model(): Store
      reads this
    {
      Store(limits, headCache, cacheOrder, cachedBytes)
    }

    constructor (limits: Limits)
      ensures Model() == Empty(limits) && hits == 0 && misses == 0
    {
      this.limits := limits;
      headCache, cacheOrder, cachedBytes, hits, misses := map[], [], 0, 0, 0;
    }

    method Lookup(s: Schema) returns (key: string, found: Option<Head>)
      modifies this`hits, this`misses
      ensures key == HeadKey(s)
      ensures found == if limits.entries != 0 && |key| <= limits.bytes && key in headCache
                       then Some(headCache[key]) else None
      ensures hits + misses == old(hits + misses) + 1 && (hits == old(hits) + 1 <==> found.Some?)
    {
      key := BuildHeadKey(s);
      var cacheable := limits.entries != 0 && |key| <= limits.bytes;
      if cacheable && key in headCache {
        hits := hits + 1;
        return key, Some(headCache[key]);
      }
      misses := misses + 1;
      found := None;
    }

    method Remember(key: string, head: Head, bytes: nat)
      modifies this`headCache, this`cacheOrder, this`cachedBytes
      ensures Model() == if Cacheable(limits, key) then Insert(old(Model()), key, head, bytes) else old(Model())
    {
      if limits.entries == 0 || |key| > limits.bytes { return; }
      if bytes <= limits.bytes && key !in headCache {
        EvictFor(bytes);
        cacheOrder := cacheOrder + [Slot(key, bytes)];
        headCache := headCache[key := head];
        cachedBytes := cachedBytes + bytes;
      }
    }

    method EvictFor(bytes: nat)
      modifies this`headCache, this`cacheOrder, this`cachedBytes
      ensures Model() == MakeRoom(old(Model()), bytes)
    {
      while cacheOrder != [] && (|headCache| >= limits.entries || cachedBytes > limits.bytes - bytes)
        invariant MakeRoom(Model(), bytes) == MakeRoom(old(Model()), bytes)
        decreases |cacheOrder|
      {
        DropFirst();
      }
    }

    method DropFirst()
      requires cacheOrder != []
      modifies this`headCache, this`cacheOrder, this`cachedBytes
      ensures Model() == DropOldest(old(Model()))
    {
      cachedBytes := cachedBytes - cacheOrder[0].bytes;
      headCache := headCache - {cacheOrder[0].key};
      cacheOrder := cacheOrder[1..];
    }
  }

  // ------------------------------------------------------- the storage invariant

  function Total(order: seq<Slot>): nat {
    if order == [] then 0 else order[0].bytes + Total(order[1..])
  }

  lemma {:induction false} TotalAppend(order: seq<Slot>, slot: Slot)
    ensures Total(order + [slot]) == Total(order) + slot.bytes
  {
    if order != [] {
      assert (order + [slot])[1..] == order[1..] + [slot];
      TotalAppend(order[1..], slot);
    }
  }

  ghost predicate Queues(order: seq<Slot>, key: string) {
    exists i :: 0 <= i < |order| && order[i].key == key
  }

  /** Queue and map hold the same distinct keys. */
  ghost predicate Listed(cache: map<string, Head>, order: seq<Slot>) {
    && (forall i, j :: 0 <= i < j < |order| ==> order[i].key != order[j].key)
    && (forall key :: Queues(order, key) <==> key in cache)
    && |cache| == |order|
  }

  ghost predicate Stored(s: Store) {
    Listed(s.cache, s.order) && s.cached == Total(s.order)
  }

  ghost predicate Inv(s: Store) {
    Stored(s) && |s.order| <= s.limits.entries && s.cached <= s.limits.bytes
  }

  lemma OldestListed(cache: map<string, Head>, order: seq<Slot>)
    requires Listed(cache, order) && order != []
    ensures Listed(cache - {order[0].key}, order[1..])
  {
  }

  lemma AppendListed(cache: map<string, Head>, order: seq<Slot>, slot: Slot, head: Head)
    requires Listed(cache, order) && slot.key !in cache
    ensures Listed(cache[slot.key := head], order + [slot])
  {
    var more := order + [slot];
    assert !Queues(order, slot.key);
    forall key ensures Queues(more, key) <==> key in cache[slot.key := head] {
      if Queues(more, key) {
        var i :| 0 <= i < |more| && more[i].key == key;
        if i < |order| { assert order[i].key == key; assert Queues(order, key); }
      }
      if key == slot.key {
        assert more[|order|].key == key;
      } else if key in cache {
        assert Queues(order, key);
        var i :| 0 <= i < |order| && order[i].key == key;
        assert more[i].key == key;
      }
    }
  }

  predicate Fits(limits: Limits, order: seq<Slot>, bytes: nat) {
    |order| < limits.entries && Total(order) + bytes <= limits.bytes
  }

  /** The number of insertions forgotten is the least that leaves room. */
  ghost predicate LeastDropped(limits: Limits, order: seq<Slot>, dropped: nat, bytes: nat) {
    && dropped <= |order| && Fits(limits, order[dropped..], bytes)
    && forall d :: 0 <= d < dropped ==> !Fits(limits, order[d..], bytes)
  }

  ghost predicate Subset(t: Store, s: Store) {
    && t.limits == s.limits && forall key :: key in t.cache ==> key in s.cache && t.cache[key] == s.cache[key]
  }

  lemma {:induction false} MakeRoomDropsOldest(s: Store, bytes: nat) returns (dropped: nat)
    requires Stored(s) && s.limits.entries > 0 && bytes <= s.limits.bytes
    ensures var t := MakeRoom(s, bytes);
            Stored(t) && Subset(t, s) && dropped <= |s.order| && t.order == s.order[dropped..]
    ensures LeastDropped(s.limits, s.order, dropped, bytes)
    decreases |s.order|
  {
    if Crowded(s, bytes) {
      OldestListed(s.cache, s.order);
      var fewer := MakeRoomDropsOldest(DropOldest(s), bytes);
      dropped := fewer + 1;
      OneMoreDropped(s.limits, s.order, fewer, bytes);
    } else {
      dropped := 0;
      assert s.order[0..] == s.order;
    }
  }

  lemma OneMoreDropped(limits: Limits, order: seq<Slot>, fewer: nat, bytes: nat)
    requires order != [] && !Fits(limits, order, bytes) && LeastDropped(limits, order[1..], fewer, bytes)
    ensures LeastDropped(limits, order, fewer + 1, bytes) && order[1..][fewer..] == order[fewer + 1..]
  {
    forall d | 0 <= d < fewer + 1 ensures !Fits(limits, order[d..], bytes) {
      if d == 0 {
        assert order[0..] == order;
      } else {
        assert order[1..][d - 1..] == order[d..];
      }
    }
  }

  /** Every insertion keeps both limits and the agreement of map, queue and byte count, and forgets only the
      oldest heads, no more than it must. */
  lemma InsertKeeps(s: Store, key: string, head: Head, bytes: nat)
    requires Inv(s) && s.limits.entries > 0
    ensures Inv(Insert(s, key, head, bytes))
    ensures bytes <= s.limits.bytes && key !in s.cache ==>
              exists d: nat :: LeastDropped(s.limits, s.order, d, bytes)
                       && Insert(s, key, head, bytes).order == s.order[d..] + [Slot(key, bytes)]
  {
    if bytes <= s.limits.bytes && key !in s.cache {
      var d := MakeRoomDropsOldest(s, bytes);
      var room := MakeRoom(s, bytes);
      AppendListed(room.cache, room.order, Slot(key, bytes), head);
      TotalAppend(room.order, Slot(key, bytes));
    }
  }

  // -------------------------------------------------------- concurrent callers

  datatype Call = Idle | Preparing(schema: Schema)

  datatype Answer = Answer(schema: Schema, head: Head)

  /** Callers share the store; answers lists what was returned so far. */
  datatype System = System(store: Store, calls: seq<Call>, answers: seq<Answer>)

  /** One critical section: the lookup, or the insertion of a head computed since. */
  datatype Step = LookUp(i: nat, schema: Schema) | PutBack(i: nat, bytes: nat)

  predicate Enabled(s: System, step: Step) {
    step.i < |s.calls| && (if step.LookUp? then s.calls[step.i].Idle? else s.calls[step.i].Preparing?)
  }

  function Next(s: System, step: Step, compute: Schema -> Head): System
    requires Enabled(s, step)
  {
    match step
    case LookUp(i, schema) =>
      var key := HeadKey(schema);
      if Cacheable(s.store.limits, key) && key in s.store.cache
      then s.(answers := s.answers + [Answer(schema, s.store.cache[key])])
      else s.(calls := s.calls[i := Preparing(schema)])
    case PutBack(i, bytes) =>
      var schema := s.calls[i].schema;
      var key, head := HeadKey(schema), compute(schema);
      System(if Cacheable(s.store.limits, key) then Insert(s.store, key, head, bytes) else s.store,
             s.calls[i := Idle], s.answers + [Answer(schema, head)])
  }

  /** When a head is answered from the cache: caching is on, the key is within the byte limit, and it is stored. */
  lemma LookUpIs(s: System, i: nat, schema: Schema, compute: Schema -> Head)
    requires Enabled(s, LookUp(i, schema))
    ensures var t, key := Next(s, LookUp(i, schema), compute), HeadKey(schema);
            if s.store.limits.entries != 0 && |key| <= s.store.limits.bytes && key in s.store.cache
            then t == s.(answers := s.answers + [Answer(schema, s.store.cache[key])])
            else t == s.(calls := s.calls[i := Preparing(schema)])
  {
  }

  /** When a prepared head is stored: caching is on, key and head are each within the byte limit, and nobody stored it
      meanwhile. It is then the newest. */
  lemma PutBackIs(s: System, i: nat, bytes: nat, compute: Schema -> Head)
    requires Enabled(s, PutBack(i, bytes))
    ensures var t, schema := Next(s, PutBack(i, bytes), compute), s.calls[i].schema;
            var key := HeadKey(schema);
            && t.calls == s.calls[i := Idle] && t.answers == s.answers + [Answer(schema, compute(schema))]
            && if s.store.limits.entries == 0 || |key| > s.store.limits.bytes || bytes > s.store.limits.bytes
                  || key in s.store.cache
               then t.store == s.store
               else key in t.store.cache && t.store.cache[key] == compute(schema)
                    && t.store.order != [] && t.store.order[|t.store.order| - 1] == Slot(key, bytes)
  {
  }

  ghost predicate Truthful(s: Store, compute: Schema -> Head) {
    forall schema :: HeadKey(schema) in s.cache ==> s.cache[HeadKey(schema)] == compute(schema)
  }

  ghost predicate Sound(s: System, compute: Schema -> Head) {
    && Inv(s.store) && Truthful(s.store, compute)
    && forall i :: 0 <= i < |s.answers| ==> s.answers[i].head == compute(s.answers[i].schema)
  }

  lemma InsertTruthful(s: Store, schema: Schema, bytes: nat, compute: Schema -> Head)
    requires Inv(s) && s.limits.entries > 0 && Truthful(s, compute)
    ensures Truthful(Insert(s, HeadKey(schema), compute(schema), bytes), compute)
  {
    var key := HeadKey(schema);
    if bytes <= s.limits.bytes && key !in s.cache {
      var _ := MakeRoomDropsOldest(s, bytes);
      var t := Insert(s, key, compute(schema), bytes);
      forall other | HeadKey(other) in t.cache ensures t.cache[HeadKey(other)] == compute(other) {
        HeadKeyInjective(other, schema);
      }
    }
  }

  lemma StepSound(s: System, step: Step, compute: Schema -> Head)
    requires Sound(s, compute) && Enabled(s, step)
    ensures Sound(Next(s, step, compute), compute)
  {
    if step.PutBack? {
      var schema := s.calls[step.i].schema;
      if Cacheable(s.store.limits, HeadKey(schema)) {
        InsertKeeps(s.store, HeadKey(schema), compute(schema), step.bytes);
        InsertTruthful(s.store, schema, step.bytes, compute);
      }
    }
  }

  ghost predicate Allowed(s: System, steps: seq<Step>, compute: Schema -> Head)
    decreases |steps|
  {
    steps == [] || (Enabled(s, steps[0]) && Allowed(Next(s, steps[0], compute), steps[1..], compute))
  }

  ghost function RunAll(s: System, steps: seq<Step>, compute: Schema -> Head): System
    requires Allowed(s, steps, compute)
    decreases |steps|
  {
    if steps == [] then s else RunAll(Next(s, steps[0], compute), steps[1..], compute)
  }

  lemma {:induction false} RunSound(s: System, steps: seq<Step>, compute: Schema -> Head)
    requires Sound(s, compute) && Allowed(s, steps, compute)
    ensures Sound(RunAll(s, steps, compute), compute)
    decreases |steps|
  {
    if steps != [] {
      StepSound(s, steps[0], compute);
      RunSound(Next(s, steps[0], compute), steps[1..], compute);
    }
  }

  /** The cache is transparent: whatever callers do concurrently, every answer is what preparing that question
      afresh gives, and the limits hold throughout. */
  lemma Transparent(limits: Limits, callers: nat, steps: seq<Step>, compute: Schema -> Head)
    requires var start := System(Empty(limits), seq(callers, _ => Idle), []);
             Allowed(start, steps, compute)
    ensures var end := RunAll(System(Empty(limits), seq(callers, _ => Idle), []), steps, compute);
            && Inv(end.store)
            && forall i :: 0 <= i < |end.answers| ==> end.answers[i].head == compute(end.answers[i].schema)
  {
    var start := System(Empty(limits), seq(callers, _ => Idle), []);
    assert Listed(map[], []) by {
      forall key ensures !Queues([], key) {}
    }
    RunSound(start, steps, compute);
  }

  // --------------------------------------------------- when the key is looked for again

  /** Under one lock a miss still holds at the insertion, so the native backend needs no second look. */
  lemma NativeNeedsNoSecondLook(s: Store, key: string, head: Head, bytes: nat)
    requires key !in s.cache
    ensures NativeInsert(s, key, head, bytes) == Insert(s, key, head, bytes)
  {
  }

  /** With separate critical sections two callers may both miss; the second look is what then keeps the queue
      and the map in step. Without it the invariant is lost whenever both insertions are stored. */
  lemma SecondLookNeeded(s: Store, key: string, head: Head, bytes: nat)
    requires Inv(s) && key !in s.cache && bytes <= s.limits.bytes
    requires |s.order| + 2 <= s.limits.entries && s.cached + 2 * bytes <= s.limits.bytes
    ensures Inv(Insert(Insert(s, key, head, bytes), key, head, bytes))
    ensures !Inv(NativeInsert(NativeInsert(s, key, head, bytes), key, head, bytes))
  {
    InsertKeeps(s, key, head, bytes);
    var once := NativeInsert(s, key, head, bytes);
    assert once == Insert(s, key, head, bytes) == Append(s, key, head, bytes);
    var twice := NativeInsert(once, key, head, bytes);
    assert twice == Append(once, key, head, bytes);
    assert twice.order[|s.order|].key == twice.order[|s.order| + 1].key;
  }
}
