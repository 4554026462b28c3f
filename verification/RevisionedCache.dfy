/** revisioned_cache: a byte-bounded least-recently-used cache fenced by generation tickets. The operations
    are given as functions on the cache state and as the methods that update its fields in place. */
module RevisionedCache {
  import opened Wrappers

  const MAX_TICKET: nat := 0xFFFF_FFFF_FFFF_FFFF
  const MAX_TIME: int := 0x7FFF_FFFF_FFFF_FFFF

  /** Clock readings of a steady clock. */
  type Instant = t: int | 0 <= t <= MAX_TIME

  datatype Revisions = Revisions(
    model: string, tokenizer: string, prompt: string, schema: string, knowledge: string,
    weights: string, environment: string)

  datatype Limits = Limits(entries: nat, bytes: nat)

  datatype Entry<V> = Entry(value: V, bytes: nat, expires: int)

  datatype Counters = Counters(
    hits: nat, misses: nat, writes: nat, evictions: nat,
    staleReads: nat, staleWrites: nat, revisionInvalidations: nat)

  /** lru lists keys from most to least recently used. */
  datatype State<V> = State(
    limits: Limits, revisions: Revisions, initialized: bool, generation: nat,
    entries: map<string, Entry<V>>, lru: seq<string>, retained: int, counters: Counters)

  datatype Write<V> = Write(key: string, issued: nat, value: Option<V>, bytes: nat, ttl: int, now: Instant)

  // ---------------------------------------------------------------- operations

  function Initial<V>(limits: Limits): State<V> {
    State(limits, Revisions("", "", "", "", "", "", ""), false, 0, map[], [], 0, Counters(0, 0, 0, 0, 0, 0, 0))
  }

  function Without(keys: seq<string>, key: string): (r: seq<string>)
    ensures |r| <= |keys| && (key in keys ==> |r| < |keys|)
    ensures forall k :: k in r <==> k in keys && k != key
    decreases |keys|
  {
    if keys == [] then []
    else
      var n := |keys| - 1;
      assert keys == keys[..n] + [keys[n]];
      Without(keys[..n], key) + if keys[n] == key then [] else [keys[n]]
  }

  function Erase<V>(s: State<V>, key: string): State<V>
    requires key in s.entries
  {
    s.(retained := s.retained - s.entries[key].bytes, lru := Without(s.lru, key), entries := s.entries - {key})
  }

  function Clear<V>(s: State<V>): State<V> {
    s.(entries := map[], lru := [], retained := 0)
  }

  /** Tickets count up and wrap to 1, never to 0. */
  function NextTicket(generation: nat): nat {
    if generation == MAX_TICKET then 1 else generation + 1
  }

  predicate Changes<V>(s: State<V>, revisions: Revisions) {
    !s.initialized || revisions != s.revisions
  }

  function Advance<V>(s: State<V>, revisions: Revisions): State<V> {
    if Changes(s, revisions) then
      var invalidations := s.counters.revisionInvalidations + if s.initialized then 1 else 0;
      Clear(s).(revisions := revisions, initialized := true, generation := NextTicket(s.generation),
                counters := s.counters.(revisionInvalidations := invalidations))
    else s
  }

  predicate Current<V>(s: State<V>, issued: nat) {
    s.initialized && issued == s.generation
  }

  function Get<V>(s: State<V>, key: string, issued: nat, now: Instant): (State<V>, Option<V>) {
    if !Current(s, issued) then (s.(counters := s.counters.(staleReads := s.counters.staleReads + 1)), None)
    else if key !in s.entries then (s.(counters := s.counters.(misses := s.counters.misses + 1)), None)
    else if s.entries[key].expires <= now then
      (Erase(s, key).(counters := s.counters.(misses := s.counters.misses + 1)), None)
    else
      (s.(lru := [key] + Without(s.lru, key), counters := s.counters.(hits := s.counters.hits + 1)),
       Some(s.entries[key].value))
  }

  /** Writes refused before the lock is taken. */
  predicate Refused<V>(limits: Limits, w: Write<V>) {
    w.key == "" || w.value.None? || w.ttl <= 0 || w.bytes > limits.bytes || |w.key| > limits.bytes - w.bytes
  }

  /** Expiry saturates at the end of time. */
  function Expiry(ttl: int, now: Instant): int {
    if ttl == MAX_TIME || ttl > MAX_TIME - now then MAX_TIME else now + ttl
  }

  function Size<V>(w: Write<V>): nat { |w.key| + w.bytes }

  /** Evict from the back until one more entry of the given size fits. */
  function MakeRoom<V>(s: State<V>, size: nat): State<V>
    decreases |s.lru|
  {
    if s.lru != [] && (|s.entries| >= s.limits.entries || size > s.limits.bytes - s.retained) then
      var oldest := s.lru[|s.lru| - 1];
      if oldest !in s.entries then MakeRoom(s.(lru := s.lru[..|s.lru| - 1]), size)
      else MakeRoom(Erase(s, oldest).(counters := s.counters.(evictions := s.counters.evictions + 1)), size)
    else s
  }

  function Insert<V>(s: State<V>, key: string, entry: Entry<V>): State<V> {
    s.(lru := [key] + s.lru, entries := s.entries[key := entry], retained := s.retained + entry.bytes,
       counters := s.counters.(writes := s.counters.writes + 1))
  }

  function Replaced<V>(s: State<V>, key: string): State<V> {
    if key in s.entries then Erase(s, key) else s
  }

  function Put<V>(s: State<V>, w: Write<V>): (State<V>, bool) {
    if Refused(s.limits, w) then (s, false)
    else if !Current(s, w.issued) then (s.(counters := s.counters.(staleWrites := s.counters.staleWrites + 1)), false)
    else
      var room := MakeRoom(Replaced(s, w.key), Size(w));
      (Insert(room, w.key, Entry(w.value.value, Size(w), Expiry(w.ttl, w.now))), true)
  }

  function Invalidate<V>(s: State<V>): State<V> {
    Clear(s).(initialized := false, generation := NextTicket(s.generation),
              counters := s.counters.(revisionInvalidations := s.counters.revisionInvalidations + 1))
  }

  // ---------------------------------------------------------------- the object

  class Cache<V> {
    const limits: Limits
    var revisions: Revisions
    var initialized: bool
    var generation: nat
    var entries: map<string, Entry<V>>
    var lru: seq<string>
    var retained: int
    var counters: Counters

    ghost function Model(): State<V>
      reads this
    {
      State(limits, revisions, initialized, generation, entries, lru, retained, counters)
    }

    /** The source throws for limits that are not positive. */
    constructor (limits: Limits)
      requires limits.entries > 0 && limits.bytes > 0
      ensures Model() == Initial(limits)
    {
      this.limits := limits;
      revisions := Revisions("", "", "", "", "", "", "");
      initialized, generation := false, 0;
      entries, lru, retained := map[], [], 0;
      counters := Counters(0, 0, 0, 0, 0, 0, 0);
    }

    method ClearLocked()
      modifies this
      ensures Model() == Clear(old(Model()))
    {
      entries := map[];
      lru := [];
      retained := 0;
    }

    method EraseLocked(key: string)
      requires key in entries
      modifies this
      ensures Model() == Erase(old(Model()), key)
    {
      retained := retained - entries[key].bytes;
      lru := RemoveFrom(lru, key);
      entries := entries - {key};
    }

    static method RemoveFrom(keys: seq<string>, key: string) returns (r: seq<string>)
      ensures r == Without(keys, key)
    {
      r := [];
      for i := 0 to |keys|
        invariant r == Without(keys[..i], key)
      {
        assert keys[..i + 1][..i] == keys[..i];
        if keys[i] != key { r := r + [keys[i]]; }
      }
      assert keys[..|keys|] == keys;
    }

    method AdvanceTo(revised: Revisions) returns (ticket: nat)
      modifies this
      ensures Model() == Advance(old(Model()), revised) && ticket == Model().generation
    {
      if !initialized || revised != revisions {
        if initialized { counters := counters.(revisionInvalidations := counters.revisionInvalidations + 1); }
        ClearLocked();
        revisions := revised;
        initialized := true;
        generation := if generation == MAX_TICKET then 1 else generation + 1;
      }
      ticket := generation;
    }

    method Lookup(key: string, issued: nat, now: Instant) returns (value: Option<V>)
      modifies this
      ensures (Model(), value) == Get(old(Model()), key, issued, now)
    {
      if !initialized || issued != generation {
        counters := counters.(staleReads := counters.staleReads + 1);
        return None;
      }
      if key !in entries {
        counters := counters.(misses := counters.misses + 1);
        return None;
      }
      if entries[key].expires <= now {
        EraseLocked(key);
        counters := counters.(misses := counters.misses + 1);
        return None;
      }
      var rest := RemoveFrom(lru, key);
      lru := [key] + rest;
      counters := counters.(hits := counters.hits + 1);
      value := Some(entries[key].value);
    }

    method Store(w: Write<V>) returns (stored: bool)
      modifies this
      ensures (Model(), stored) == Put(old(Model()), w)
    {
      if w.key == "" || w.value.None? || w.ttl <= 0 { return false; }
      if w.bytes > limits.bytes || |w.key| > limits.bytes - w.bytes { return false; }
      var size := |w.key| + w.bytes;
      if !initialized || w.issued != generation {
        counters := counters.(staleWrites := counters.staleWrites + 1);
        return false;
      }
      if w.key in entries { EraseLocked(w.key); }
      EvictFor(size);
      var expires := if w.ttl == MAX_TIME || w.ttl > MAX_TIME - w.now then MAX_TIME else w.now + w.ttl;
      InsertLocked(w.key, Entry(w.value.value, size, expires));
      stored := true;
    }

    method InsertLocked(key: string, entry: Entry<V>)
      modifies this
      ensures Model() == Insert(old(Model()), key, entry)
    {
      lru := [key] + lru;
      entries := entries[key := entry];
      retained := retained + entry.bytes;
      counters := counters.(writes := counters.writes + 1);
    }

    method EvictFor(size: nat)
      modifies this
      ensures Model() == MakeRoom(old(Model()), size)
    {
      while lru != [] && (|entries| >= limits.entries || size > limits.bytes - retained)
        invariant MakeRoom(Model(), size) == MakeRoom(old(Model()), size)
        decreases |lru|
      {
        var oldest := lru[|lru| - 1];
        if oldest !in entries {
          lru := lru[..|lru| - 1];
        } else {
          EraseLocked(oldest);
          counters := counters.(evictions := counters.evictions + 1);
        }
      }
    }

    method InvalidateAll()
      modifies this
      ensures Model() == Invalidate(old(Model()))
    {
      ClearLocked();
      initialized := false;
      generation := if generation == MAX_TICKET then 1 else generation + 1;
      counters := counters.(revisionInvalidations := counters.revisionInvalidations + 1);
    }
  }
}
