/** What the cache promises over every run: it never answers with anything but the last value written in the
    current generation, it stays within its limits, it evicts strictly by recency, and tickets fence. */
module CacheGuarantees {
  import opened Lists
  import opened Wrappers
  import opened RevisionedCache

  // ------------------------------------------------------- the storage invariant

  /** Bytes held by the listed keys. */
  function Held<V>(entries: map<string, Entry<V>>, keys: seq<string>): nat
    decreases |keys|
  {
    if keys == [] then 0
    else Held(entries, keys[..|keys| - 1]) + BytesOf(entries, keys[|keys| - 1])
  }

  function BytesOf<V>(entries: map<string, Entry<V>>, key: string): nat {
    if key in entries then entries[key].bytes else 0
  }

  /** The list and the map hold the same distinct keys, and the byte counter is their exact sum. */
  ghost predicate Stored<V>(s: State<V>) {
    Listed(s.entries, s.lru) && s.retained == Held(s.entries, s.lru)
  }

  ghost predicate Listed<V>(entries: map<string, Entry<V>>, keys: seq<string>) {
    && NoDuplicates(keys)
    && (forall k :: k in keys <==> k in entries)
    && |entries| == |keys|
  }

  ghost predicate Inv<V>(s: State<V>) {
    && Stored(s)
    && |s.lru| <= s.limits.entries && s.retained <= s.limits.bytes && s.limits.entries > 0
    && (s.lru != [] ==> s.initialized)
  }

  lemma {:induction false} HeldSame<V>(a: map<string, Entry<V>>, b: map<string, Entry<V>>, keys: seq<string>)
    requires forall k :: k in keys ==> BytesOf(a, k) == BytesOf(b, k)
    ensures Held(a, keys) == Held(b, keys)
    decreases |keys|
  {
    if keys != [] {
      assert keys[|keys| - 1] in keys;
      HeldSame(a, b, keys[..|keys| - 1]);
    }
  }

  lemma {:induction false} HeldFront<V>(entries: map<string, Entry<V>>, key: string, keys: seq<string>)
    ensures Held(entries, [key] + keys) == BytesOf(entries, key) + Held(entries, keys)
    decreases |keys|
  {
    if keys == [] {
      assert [key] + keys == [key];
      assert Held(entries, [key]) == Held(entries, []) + BytesOf(entries, key);
    } else {
      HeldFront(entries, key, keys[..|keys| - 1]);
      assert ([key] + keys)[..|keys|] == [key] + keys[..|keys| - 1];
    }
  }

  lemma {:induction false} WithoutAbsent(keys: seq<string>, key: string)
    requires key !in keys
    ensures Without(keys, key) == keys
    decreases |keys|
  {
    if keys != [] {
      WithoutAbsent(keys[..|keys| - 1], key);
      assert keys == keys[..|keys| - 1] + [keys[|keys| - 1]];
    }
  }

  lemma {:induction false} WithoutDistinct(keys: seq<string>, key: string)
    requires NoDuplicates(keys)
    ensures NoDuplicates(Without(keys, key)) && |Without(keys, key)| == if key in keys then |keys| - 1 else |keys|
    decreases |keys|
  {
    if keys != [] {
      var front, last := keys[..|keys| - 1], keys[|keys| - 1];
      assert keys == front + [last];
      WithoutDistinct(front, key);
      assert last !in front;
    }
  }

  lemma {:induction false} WithoutHeld<V>(entries: map<string, Entry<V>>, keys: seq<string>, key: string)
    requires NoDuplicates(keys) && key in keys
    ensures Held(entries, Without(keys, key)) == Held(entries, keys) - BytesOf(entries, key)
    ensures |Without(keys, key)| == |keys| - 1 && NoDuplicates(Without(keys, key))
    decreases |keys|
  {
    WithoutDistinct(keys, key);
    var front, last := keys[..|keys| - 1], keys[|keys| - 1];
    assert keys == front + [last];
    if last == key {
      WithoutAbsent(front, key);
      assert Without(keys, key) == front + [] == front;
    } else {
      WithoutHeld(entries, front, key);
      HeldLast(entries, Without(front, key), last);
    }
  }

  lemma HeldLast<V>(entries: map<string, Entry<V>>, keys: seq<string>, last: string)
    ensures Held(entries, keys + [last]) == Held(entries, keys) + BytesOf(entries, last)
  {
    assert (keys + [last])[..|keys|] == keys;
  }

  lemma ErasedHeld<V>(entries: map<string, Entry<V>>, keys: seq<string>, key: string)
    requires NoDuplicates(keys) && key in keys
    ensures Held(entries - {key}, Without(keys, key)) == Held(entries, keys) - BytesOf(entries, key)
    ensures |Without(keys, key)| == |keys| - 1 && NoDuplicates(Without(keys, key))
  {
    WithoutHeld(entries, keys, key);
    HeldSame(entries, entries - {key}, Without(keys, key));
  }

  lemma {:induction false} ErasedSize<V>(entries: map<string, Entry<V>>, key: string)
    requires key in entries
    ensures |entries - {key}| == |entries| - 1
  {
    assert (entries - {key}).Keys == entries.Keys - {key};
    assert |entries.Keys - {key}| == |entries.Keys| - 1;
  }

  lemma {:induction false} ErasedListed<V>(entries: map<string, Entry<V>>, keys: seq<string>, key: string)
    requires Listed(entries, keys) && key in keys
    ensures Listed(entries - {key}, Without(keys, key))
  {
    WithoutHeld(entries, keys, key);
    ErasedSize(entries, key);
    var rest, left := Without(keys, key), entries - {key};
    forall k ensures k in rest <==> k in left {
      assert k in keys <==> k in entries;
    }
  }

  lemma EraseKeeps<V>(s: State<V>, key: string)
    requires Stored(s) && key in s.entries
    ensures Stored(Erase(s, key)) && |Erase(s, key).lru| == |s.lru| - 1 && Erase(s, key).retained <= s.retained
  {
    ErasedHeld(s.entries, s.lru, key);
    ErasedListed(s.entries, s.lru, key);
  }

  /** The listed entries fit beside one more of the given size. */
  ghost predicate Fits<V>(limits: Limits, entries: map<string, Entry<V>>, keys: seq<string>, size: nat) {
    |keys| < limits.entries && Held(entries, keys) + size <= limits.bytes
  }

  /** The list kept is the longest prefix of the recency list that leaves room. */
  ghost predicate LongestFit<V>(limits: Limits, entries: map<string, Entry<V>>, keys: seq<string>, kept: seq<string>,
    size: nat) {
    && kept <= keys && Fits(limits, entries, kept, size)
    && (|kept| < |keys| ==> !Fits(limits, entries, keys[..|kept| + 1], size))
  }

  /** What eviction may change: the list is cut, the map follows, every entry cut is counted. */
  ghost predicate Cut<V>(s: State<V>, t: State<V>) {
    && Stored(t) && t.lru <= s.lru
    && (forall k :: k in t.entries ==> k in s.entries && t.entries[k] == s.entries[k])
    && t == s.(lru := t.lru, entries := t.entries, retained := t.retained,
               counters := s.counters.(evictions := s.counters.evictions + (|s.lru| - |t.lru|)))
  }

  lemma MakeRoomKeepsNewest<V>(s: State<V>, size: nat)
    requires Stored(s) && s.limits.entries > 0 && size <= s.limits.bytes
    ensures Cut(s, MakeRoom(s, size)) && LongestFit(s.limits, s.entries, s.lru, MakeRoom(s, size).lru, size)
  {
    MakeRoomCuts(s, size);
    MakeRoomFits(s, size);
  }

  predicate Crowded<V>(s: State<V>, size: nat) {
    s.lru != [] && (|s.entries| >= s.limits.entries || size > s.limits.bytes - s.retained)
  }

  /** One turn of the eviction loop: the last key goes, and with it its entry. */
  lemma EvictLast<V>(s: State<V>, size: nat) returns (e: State<V>)
    requires Stored(s) && Crowded(s, size)
    ensures Stored(e) && e.lru == s.lru[..|s.lru| - 1] && MakeRoom(s, size) == MakeRoom(e, size)
    ensures forall k :: k in e.entries ==> k in s.entries && e.entries[k] == s.entries[k]
    ensures e == s.(lru := e.lru, entries := e.entries, retained := e.retained,
                    counters := s.counters.(evictions := s.counters.evictions + 1))
  {
    var oldest := s.lru[|s.lru| - 1];
    assert oldest in s.lru;
    EraseKeeps(s, oldest);
    LastGone(s.lru);
    e := Turn(s, size);
  }

  lemma LastGone(keys: seq<string>)
    requires NoDuplicates(keys) && keys != []
    ensures Without(keys, keys[|keys| - 1]) == keys[..|keys| - 1]
  {
    WithoutAbsent(keys[..|keys| - 1], keys[|keys| - 1]);
  }

  lemma Turn<V>(s: State<V>, size: nat) returns (e: State<V>)
    requires Crowded(s, size) && s.lru[|s.lru| - 1] in s.entries
    ensures e == Erase(s, s.lru[|s.lru| - 1]).(counters := s.counters.(evictions := s.counters.evictions + 1))
    ensures MakeRoom(s, size) == MakeRoom(e, size)
  {
    e := Erase(s, s.lru[|s.lru| - 1]).(counters := s.counters.(evictions := s.counters.evictions + 1));
  }

  lemma {:induction false} MakeRoomCuts<V>(s: State<V>, size: nat)
    requires Stored(s)
    ensures Cut(s, MakeRoom(s, size))
    decreases |s.lru|
  {
    if Crowded(s, size) {
      var e := EvictLast(s, size);
      MakeRoomCuts(e, size);
      CutAgain(s, e, MakeRoom(e, size));
    }
  }

  lemma {:induction false} MakeRoomFits<V>(s: State<V>, size: nat)
    requires Stored(s) && s.limits.entries > 0 && size <= s.limits.bytes
    ensures LongestFit(s.limits, s.entries, s.lru, MakeRoom(s, size).lru, size)
    decreases |s.lru|
  {
    if Crowded(s, size) {
      var e := EvictLast(s, size);
      MakeRoomFits(e, size);
      SameBytes(s, e);
      StillLongest(s.limits, s.entries, e.entries, s.lru, MakeRoom(e, size).lru, size);
    }
  }

  lemma SameBytes<V>(s: State<V>, e: State<V>)
    requires Stored(e) && forall k :: k in e.entries ==> k in s.entries && e.entries[k] == s.entries[k]
    ensures forall k :: k in e.lru ==> BytesOf(s.entries, k) == BytesOf(e.entries, k)
  {
  }

  lemma CutAgain<V>(s: State<V>, e: State<V>, t: State<V>)
    requires Cut(e, t) && s.lru != [] && e.lru == s.lru[..|s.lru| - 1]
    requires forall k :: k in e.entries ==> k in s.entries && e.entries[k] == s.entries[k]
    requires e == s.(lru := e.lru, entries := e.entries, retained := e.retained,
                     counters := s.counters.(evictions := s.counters.evictions + 1))
    ensures Cut(s, t)
  {
  }

  /** The longest fit of the cut list is the longest fit of the whole list, which did not fit. */
  lemma StillLongest<V>(limits: Limits, entries: map<string, Entry<V>>, fewer: map<string, Entry<V>>,
                        keys: seq<string>, kept: seq<string>, size: nat)
    requires keys != [] && forall k :: k in keys[..|keys| - 1] ==> BytesOf(entries, k) == BytesOf(fewer, k)
    requires LongestFit(limits, fewer, keys[..|keys| - 1], kept, size)
    requires |keys| >= limits.entries || size > limits.bytes - Held(entries, keys)
    ensures LongestFit(limits, entries, keys, kept, size)
  {
    var front := keys[..|keys| - 1];
    PrefixHeld(entries, fewer, front, |kept|);
    assert front[..|kept|] == kept;
    if |kept| < |front| {
      PrefixHeld(entries, fewer, front, |kept| + 1);
      assert front[..|kept| + 1] == keys[..|kept| + 1];
    } else {
      assert keys[..|kept| + 1] == keys;
    }
  }

  lemma PrefixHeld<V>(a: map<string, Entry<V>>, b: map<string, Entry<V>>, keys: seq<string>, n: nat)
    requires n <= |keys| && forall k :: k in keys ==> BytesOf(a, k) == BytesOf(b, k)
    ensures Held(a, keys[..n]) == Held(b, keys[..n])
  {
    HeldSame(a, b, keys[..n]);
  }

  function Written<V>(w: Write<V>): Entry<V>
    requires w.value.Some?
  {
    Entry(w.value.value, Size(w), Expiry(w.ttl, w.now))
  }

  /** Where the insertion of an accepted write starts from: the cache without the key, then with room made. */
  lemma {:induction false} RoomFor<V>(s: State<V>, w: Write<V>) returns (rest: State<V>, room: State<V>)
    requires Inv(s) && Put(s, w).1
    ensures rest == Replaced(s, w.key) && Put(s, w).0 == Insert(room, w.key, Written(w))
    ensures Stored(rest) && w.key !in rest.entries && rest.lru == Without(s.lru, w.key) && |rest.lru| <= |s.lru|
    ensures Stored(room) && room.lru <= rest.lru && w.key !in room.entries
    ensures forall k :: k in room.entries ==> k in s.entries && room.entries[k] == s.entries[k]
    ensures forall k :: k in room.lru ==> BytesOf(room.entries, k) == BytesOf(rest.entries, k)
    ensures room == s.(lru := room.lru, entries := room.entries, retained := room.retained,
                       counters := s.counters.(evictions := s.counters.evictions + (|rest.lru| - |room.lru|)))
    ensures LongestFit(s.limits, rest.entries, rest.lru, room.lru, Size(w))
  {
    rest := Rest(s, w);
    PutIs(s, w, rest, MakeRoom(rest, Size(w)));
    room := RoomIn(rest, Size(w));
  }

  lemma {:induction false} RoomIn<V>(rest: State<V>, size: nat) returns (room: State<V>)
    requires Stored(rest) && rest.limits.entries > 0 && size <= rest.limits.bytes
    ensures room == MakeRoom(rest, size) && Stored(room) && room.lru <= rest.lru
    ensures forall k :: k in room.entries ==> k in rest.entries && room.entries[k] == rest.entries[k]
    ensures forall k :: k in room.lru ==> BytesOf(room.entries, k) == BytesOf(rest.entries, k)
    ensures room == rest.(lru := room.lru, entries := room.entries, retained := room.retained,
                          counters := rest.counters.(evictions := rest.counters.evictions + (|rest.lru| - |room.lru|)))
    ensures LongestFit(rest.limits, rest.entries, rest.lru, room.lru, size)
  {
    room := MakeRoom(rest, size);
    MakeRoomKeepsNewest(rest, size);
    SameBytes(rest, room);
  }

  lemma {:induction false} PutIs<V>(s: State<V>, w: Write<V>, rest: State<V>, room: State<V>)
    requires Put(s, w).1 && rest == Replaced(s, w.key) && room == MakeRoom(rest, Size(w))
    ensures Put(s, w).0 == Insert(room, w.key, Written(w))
    ensures s.limits.entries > 0 ==> Size(w) <= s.limits.bytes
  {
  }

  lemma {:induction false} Rest<V>(s: State<V>, w: Write<V>) returns (rest: State<V>)
    requires Inv(s)
    ensures rest == Replaced(s, w.key) && Stored(rest) && w.key !in rest.entries
    ensures rest.lru == Without(s.lru, w.key) && |rest.lru| <= |s.lru|
    ensures rest == s.(lru := rest.lru, entries := rest.entries, retained := rest.retained)
    ensures forall k :: k in rest.entries ==> k in s.entries && rest.entries[k] == s.entries[k]
  {
    rest := Replaced(s, w.key);
    if w.key in s.entries { EraseKeeps(s, w.key); } else { WithoutAbsent(s.lru, w.key); }
  }

  lemma {:induction false} PutKeeps<V>(s: State<V>, w: Write<V>)
    requires Inv(s)
    ensures Inv(Put(s, w).0)
  {
    if Put(s, w).1 {
      var rest, room := RoomFor(s, w);
      HeldSame(room.entries, rest.entries, room.lru);
      InsertKeeps(room, w.key, Written(w));
    }
  }

  lemma InsertKeeps<V>(s: State<V>, key: string, entry: Entry<V>)
    requires Stored(s) && key !in s.entries && |s.lru| < s.limits.entries && s.retained + entry.bytes <= s.limits.bytes
    requires s.initialized
    ensures Inv(Insert(s, key, entry))
  {
    var t := Insert(s, key, entry);
    HeldSame(s.entries, t.entries, s.lru);
    HeldFront(t.entries, key, s.lru);
    assert t.entries.Keys == s.entries.Keys + {key};
  }

  lemma GetKeeps<V>(s: State<V>, key: string, issued: nat, now: Instant)
    requires Inv(s)
    ensures Inv(Get(s, key, issued, now).0)
  {
    if Current(s, issued) && key in s.entries {
      if s.entries[key].expires <= now { EraseKeeps(s, key); } else { TouchKeeps(s, key); }
    }
  }

  lemma TouchedListed<V>(entries: map<string, Entry<V>>, keys: seq<string>, key: string)
    requires Listed(entries, keys) && key in keys
    ensures Listed(entries, [key] + Without(keys, key))
  {
    WithoutHeld(entries, keys, key);
    FrontDistinct(key, Without(keys, key));
  }

  lemma FrontDistinct(key: string, rest: seq<string>)
    requires NoDuplicates(rest) && key !in rest
    ensures NoDuplicates([key] + rest) && forall k :: k in [key] + rest <==> k == key || k in rest
  {
  }

  lemma TouchKeeps<V>(s: State<V>, key: string)
    requires Stored(s) && key in s.entries
    ensures Stored(s.(lru := [key] + Without(s.lru, key))) && |[key] + Without(s.lru, key)| == |s.lru|
  {
    TouchedListed(s.entries, s.lru, key);
    WithoutHeld(s.entries, s.lru, key);
    HeldFront(s.entries, key, Without(s.lru, key));
  }

  // -------------------------------------------------------------------- runs

  datatype Op<V> = DoAdvance(revisions: Revisions) | DoGet(key: string, issued: nat, now: Instant)
                 | DoPut(w: Write<V>) | DoInvalidate

  function Step<V>(s: State<V>, op: Op<V>): State<V> {
    match op
    case DoAdvance(revisions) => Advance(s, revisions)
    case DoGet(key, issued, now) => Get(s, key, issued, now).0
    case DoPut(w) => Put(s, w).0
    case DoInvalidate => Invalidate(s)
  }

  function Run<V>(limits: Limits, ops: seq<Op<V>>): State<V>
    decreases |ops|
  {
    if ops == [] then Initial(limits) else Step(Run(limits, ops[..|ops| - 1]), ops[|ops| - 1])
  }

  lemma StepKeeps<V>(s: State<V>, op: Op<V>)
    requires Inv(s)
    ensures Inv(Step(s, op))
  {
    match op
    case DoAdvance(revisions) => assert Stored(Clear(s));
    case DoGet(key, issued, now) => GetKeeps(s, key, issued, now);
    case DoPut(w) => PutKeeps(s, w);
    case DoInvalidate => assert Stored(Clear(s));
  }

  lemma StepLimits<V>(s: State<V>, op: Op<V>)
    requires Inv(s)
    ensures Step(s, op).limits == s.limits
  {
    if op.DoPut? && Put(s, op.w).1 { var _, _ := RoomFor(s, op.w); }
  }

  /** In every reachable state both limits hold and list, map and byte counter agree. */
  lemma {:induction false} RunKeeps<V>(limits: Limits, ops: seq<Op<V>>)
    requires limits.entries > 0
    ensures Inv(Run(limits, ops)) && Run(limits, ops).limits == limits
    decreases |ops|
  {
    if ops != [] {
      RunKeeps(limits, ops[..|ops| - 1]);
      StepKeeps(Run(limits, ops[..|ops| - 1]), ops[|ops| - 1]);
      StepLimits(Run(limits, ops[..|ops| - 1]), ops[|ops| - 1]);
    }
  }

  // ------------------------------------------------ refinement of an unbounded map

  /** What an unbounded map would hold for a key: the last accepted write since the generation last changed. */
  function LastWrite<V>(limits: Limits, ops: seq<Op<V>>, key: string): Option<Entry<V>>
    decreases |ops|
  {
    if ops == [] then None
    else
      var before, earlier := Run(limits, ops[..|ops| - 1]), ops[..|ops| - 1];
      match ops[|ops| - 1]
      case DoAdvance(revisions) => if Changes(before, revisions) then None else LastWrite(limits, earlier, key)
      case DoInvalidate => None
      case DoGet(_, _, _) => LastWrite(limits, earlier, key)
      case DoPut(w) =>
        if w.key == key && Put(before, w).1 then Some(Written(w))
        else LastWrite(limits, earlier, key)
  }

  /** Everything the cache holds is what the unbounded map holds. */
  lemma {:induction false} WithinMap<V>(limits: Limits, ops: seq<Op<V>>, key: string)
    requires limits.entries > 0 && key in Run(limits, ops).entries
    ensures LastWrite(limits, ops, key) == Some(Run(limits, ops).entries[key])
    decreases |ops|
  {
    var earlier := ops[..|ops| - 1];
    var before := Run(limits, earlier);
    RunKeeps(limits, earlier);
    var op := ops[|ops| - 1];
    if !(op.DoPut? && op.w.key == key && Put(before, op.w).1) {
      StepEntry(before, op, key);
      WithinMap(limits, earlier, key);
    }
  }

  /** An entry seen after a step that did not write it was there before, and no generation change came between. */
  lemma {:induction false} StepEntry<V>(s: State<V>, op: Op<V>, key: string)
    requires Inv(s) && key in Step(s, op).entries
    requires !(op.DoPut? && op.w.key == key && Put(s, op.w).1)
    ensures key in s.entries && Step(s, op).entries[key] == s.entries[key]
    ensures !op.DoInvalidate? && (op.DoAdvance? ==> !Changes(s, op.revisions))
  {
    if op.DoPut? && Put(s, op.w).1 { PutEntry(s, op.w, key); }
  }

  lemma {:induction false} PutEntry<V>(s: State<V>, w: Write<V>, key: string)
    requires Inv(s) && Put(s, w).1 && key in Put(s, w).0.entries && key != w.key
    ensures key in s.entries && Put(s, w).0.entries[key] == s.entries[key]
  {
    var _, room := RoomFor(s, w);
    assert Put(s, w).0.entries == room.entries[w.key := Written(w)];
  }

  /** A hit is never stale: it returns the last value written to that key in the current generation, and only
      before that write expires. */
  lemma HitIsLastWrite<V>(limits: Limits, ops: seq<Op<V>>, key: string, issued: nat, now: Instant)
    requires limits.entries > 0
    ensures var (after, found) := Get(Run(limits, ops), key, issued, now);
            && (found.Some? ==>
                  && Current(Run(limits, ops), issued)
                  && LastWrite(limits, ops, key).Some?
                  && LastWrite(limits, ops, key).value.value == found.value
                  && now < LastWrite(limits, ops, key).value.expires)
            && (found.None? && Current(Run(limits, ops), issued) && key in Run(limits, ops).entries ==>
                  && LastWrite(limits, ops, key).Some? && LastWrite(limits, ops, key).value.expires <= now
                  && key !in after.entries)
  {
    if key in Run(limits, ops).entries { WithinMap(limits, ops, key); }
  }

  /** An accepted write is found by the next read exactly until it expires. */
  lemma WriteThenRead<V>(limits: Limits, ops: seq<Op<V>>, w: Write<V>, now: Instant)
    requires limits.entries > 0 && Put(Run(limits, ops), w).1
    ensures Get(Put(Run(limits, ops), w).0, w.key, w.issued, now).1
         == if now < w.now + w.ttl && now < MAX_TIME then w.value else None
  {
    RunKeeps(limits, ops);
    var _, room := RoomFor(Run(limits, ops), w);
    assert Put(Run(limits, ops), w).0.entries[w.key] == Written(w);
  }

  // ------------------------------------------------------------------- recency

  /** One more than the position of the last operation that wrote the key or hit it; zero if there is none. */
  function LastUse<V>(limits: Limits, ops: seq<Op<V>>, key: string): (n: nat)
    ensures n <= |ops|
    decreases |ops|
  {
    if ops == [] then 0
    else
      var before, op := Run(limits, ops[..|ops| - 1]), ops[|ops| - 1];
      if Uses(before, op, key) then |ops| else LastUse(limits, ops[..|ops| - 1], key)
  }

  predicate Uses<V>(s: State<V>, op: Op<V>, key: string) {
    match op
    case DoGet(k, issued, now) => k == key && Get(s, k, issued, now).1.Some?
    case DoPut(w) => w.key == key && Put(s, w).1
    case _ => false
  }

  ghost predicate ByRecency<V>(limits: Limits, ops: seq<Op<V>>, keys: seq<string>) {
    forall i, j :: 0 <= i < j < |keys| ==> LastUse(limits, ops, keys[i]) > LastUse(limits, ops, keys[j])
  }

  lemma {:induction false} WithoutOrder<V>(limits: Limits, ops: seq<Op<V>>, keys: seq<string>, key: string)
    requires ByRecency(limits, ops, keys)
    ensures ByRecency(limits, ops, Without(keys, key))
    decreases |keys|
  {
    if keys != [] {
      var n := |keys| - 1;
      WithoutOrder(limits, ops, keys[..n], key);
      var rest := Without(keys[..n], key);
      forall i | 0 <= i < |rest| ensures LastUse(limits, ops, rest[i]) > LastUse(limits, ops, keys[n]) {
        assert rest[i] in keys[..n];
      }
    }
  }

  /** The list after an operation that uses a key: that key, then a prefix of what is left without it. */
  lemma {:induction false} UsedList<V>(s: State<V>, op: Op<V>, key: string)
    requires Inv(s) && Uses(s, op, key)
    ensures var t := Step(s, op).lru; t != [] && t[0] == key && t[1..] <= Without(s.lru, key)
  {
    match op
    case DoGet(k, issued, now) => assert ([key] + Without(s.lru, key))[1..] == Without(s.lru, key);
    case DoPut(w) => PutList(s, w);
  }

  lemma {:induction false} PutList<V>(s: State<V>, w: Write<V>)
    requires Inv(s) && Put(s, w).1
    ensures var t := Put(s, w).0.lru; t != [] && t[0] == w.key && t[1..] <= Without(s.lru, w.key)
  {
    var _, room := RoomFor(s, w);
    assert ([w.key] + room.lru)[1..] == room.lru;
  }

  /** The list after any other operation: as it was, empty, or without a key found expired. */
  lemma {:induction false} UnusedList<V>(s: State<V>, op: Op<V>)
    requires Inv(s) && forall key :: !Uses(s, op, key)
    ensures var t := Step(s, op).lru; t <= s.lru || (op.DoGet? && t == Without(s.lru, op.key))
  {
    match op
    case DoAdvance(revisions) =>
    case DoInvalidate =>
    case DoGet(key, issued, now) => assert !Uses(s, op, key);
    case DoPut(w) => assert !Uses(s, op, w.key);
  }

  /** An operation that uses no listed key leaves their order. */
  lemma UnusedOrder<V>(limits: Limits, earlier: seq<Op<V>>, op: Op<V>, keys: seq<string>)
    requires ByRecency(limits, earlier, keys) && forall k :: k in keys ==> !Uses(Run(limits, earlier), op, k)
    ensures ByRecency(limits, earlier + [op], keys)
    ensures forall k :: k in keys ==> LastUse(limits, earlier + [op], k) <= |earlier|
  {
    assert (earlier + [op])[..|earlier|] == earlier;
    assert forall k :: k in keys ==> LastUse(limits, earlier + [op], k) == LastUse(limits, earlier, k);
  }

  lemma PrefixOrder<V>(limits: Limits, ops: seq<Op<V>>, keys: seq<string>, prefix: seq<string>)
    requires ByRecency(limits, ops, keys) && prefix <= keys
    ensures ByRecency(limits, ops, prefix)
  {
  }

  lemma UsedFirst<V>(limits: Limits, earlier: seq<Op<V>>, op: Op<V>, keys: seq<string>)
    requires keys != [] && Uses(Run(limits, earlier), op, keys[0]) && ByRecency(limits, earlier + [op], keys[1..])
    requires forall k :: k in keys[1..] ==> LastUse(limits, earlier + [op], k) <= |earlier|
    ensures ByRecency(limits, earlier + [op], keys)
  {
    assert (earlier + [op])[..|earlier|] == earlier;
    var ops, rest := earlier + [op], keys[1..];
    forall i, j | 0 <= i < j < |keys| ensures LastUse(limits, ops, keys[i]) > LastUse(limits, ops, keys[j]) {
      assert keys[j] == rest[j - 1];
      if i > 0 { assert keys[i] == rest[i - 1]; }
    }
  }

  /** The order in which entries would be evicted is exactly the order of their last use. */
  lemma {:induction false} RecencyOrder<V>(limits: Limits, ops: seq<Op<V>>)
    requires limits.entries > 0
    ensures ByRecency(limits, ops, Run(limits, ops).lru)
    decreases |ops|
  {
    if ops != [] {
      var earlier, op := ops[..|ops| - 1], ops[|ops| - 1];
      RecencyOrder(limits, earlier);
      StepRecency(limits, earlier, op);
      assert ops == earlier + [op];
    }
  }

  lemma {:induction false} StepRecency<V>(limits: Limits, earlier: seq<Op<V>>, op: Op<V>)
    requires limits.entries > 0 && ByRecency(limits, earlier, Run(limits, earlier).lru)
    ensures ByRecency(limits, earlier + [op], Run(limits, earlier + [op]).lru)
  {
    RunKeeps(limits, earlier);
    StepOrder(limits, earlier, op, Run(limits, earlier + [op]).lru);
  }

  lemma {:induction false} StepOrder<V>(limits: Limits, earlier: seq<Op<V>>, op: Op<V>, t: seq<string>)
    requires Inv(Run(limits, earlier)) && ByRecency(limits, earlier, Run(limits, earlier).lru)
    requires t == Run(limits, earlier + [op]).lru
    ensures ByRecency(limits, earlier + [op], t)
  {
    var s := Run(limits, earlier);
    RunNext(limits, earlier, op);
    if key :| Uses(s, op, key) {
      UsedList(s, op, key);
      WithoutOrder(limits, earlier, s.lru, key);
      PrefixOrder(limits, earlier, Without(s.lru, key), t[1..]);
      OthersUnused(s, op, key, t[1..]);
      UnusedOrder(limits, earlier, op, t[1..]);
      UsedFirst(limits, earlier, op, t);
    } else {
      UnusedList(s, op);
      if op.DoGet? { WithoutOrder(limits, earlier, s.lru, op.key); }
      if t <= s.lru { PrefixOrder(limits, earlier, s.lru, t); }
      UnusedOrder(limits, earlier, op, t);
    }
  }

  lemma {:induction false} RunNext<V>(limits: Limits, earlier: seq<Op<V>>, op: Op<V>)
    ensures Run(limits, earlier + [op]) == Step(Run(limits, earlier), op)
  {
    assert (earlier + [op])[..|earlier|] == earlier;
  }

  lemma {:induction false} OthersUnused<V>(s: State<V>, op: Op<V>, key: string, rest: seq<string>)
    requires Uses(s, op, key) && rest <= Without(s.lru, key)
    ensures forall k :: k in rest ==> !Uses(s, op, k)
  {
    forall k | k in rest ensures k != key {
      assert k in Without(s.lru, key);
    }
  }

  /** An accepted write evicts exactly the least recently used entries, and no more than it must. */
  lemma EvictsLeastRecent<V>(limits: Limits, ops: seq<Op<V>>, w: Write<V>)
    requires limits.entries > 0 && Put(Run(limits, ops), w).1
    ensures var s := Run(limits, ops);
            var rest := Replaced(s, w.key);
            var kept := Put(s, w).0.lru[1..];
            && Stored(rest) && ByRecency(limits, ops, rest.lru) && w.key !in rest.entries
            && Put(s, w).0.lru[0] == w.key && LongestFit(limits, rest.entries, rest.lru, kept, Size(w))
            && Put(s, w).0.counters.evictions == s.counters.evictions + (|rest.lru| - |kept|)
  {
    var s := Run(limits, ops);
    RunKeeps(limits, ops);
    RecencyOrder(limits, ops);
    var _, room := RoomFor(s, w);
    WithoutOrder(limits, ops, s.lru, w.key);
    assert ([w.key] + room.lru)[1..] == room.lru;
  }

  // ------------------------------------------------------------------- tickets

  /** How often the generation has changed. */
  function Era<V>(limits: Limits, ops: seq<Op<V>>): nat
    decreases |ops|
  {
    if ops == [] then 0
    else
      var before, op := Run(limits, ops[..|ops| - 1]), ops[|ops| - 1];
      Era(limits, ops[..|ops| - 1])
        + if op.DoInvalidate? || (op.DoAdvance? && Changes(before, op.revisions)) then 1 else 0
  }

  /** The ticket after so many changes of generation. */
  function TicketOf(era: nat): nat {
    if era == 0 then 0 else NextTicket(TicketOf(era - 1))
  }

  lemma {:induction false} GenerationIsTicket<V>(limits: Limits, ops: seq<Op<V>>)
    requires limits.entries > 0
    ensures Run(limits, ops).generation == TicketOf(Era(limits, ops))
    decreases |ops|
  {
    if ops != [] {
      var earlier, op := ops[..|ops| - 1], ops[|ops| - 1];
      GenerationIsTicket(limits, earlier);
      RunKeeps(limits, earlier);
      StepGeneration(Run(limits, earlier), op);
    }
  }

  lemma StepGeneration<V>(s: State<V>, op: Op<V>)
    requires Inv(s)
    ensures Step(s, op).generation
         == if op.DoInvalidate? || (op.DoAdvance? && Changes(s, op.revisions)) then NextTicket(s.generation)
             else s.generation
  {
    if op.DoPut? && Put(s, op.w).1 {
      var _, _ := RoomFor(s, op.w);
    }
  }

  /** Tickets run from 1 to the largest 64-bit value and start again at 1. */
  lemma {:induction false} TicketParts(era: nat) returns (wraps: nat, r: nat)
    requires era > 0
    ensures era - 1 == wraps * MAX_TICKET + r && r < MAX_TICKET && TicketOf(era) == r + 1
  {
    if era == 1 {
      wraps, r := 0, 0;
    } else {
      wraps, r := TicketParts(era - 1);
      if r == MAX_TICKET - 1 { wraps, r := wraps + 1, 0; } else { r := r + 1; }
    }
  }

  lemma Remainder(n: nat, q: nat, r: nat)
    requires n == q * MAX_TICKET + r && r < MAX_TICKET
    ensures n % MAX_TICKET == r
  {
  }

  /** Two eras share a ticket exactly when they are a whole number of wraps apart. */
  lemma TicketAlias(m: nat, n: nat)
    requires 1 <= m <= n
    ensures TicketOf(m) == TicketOf(n) <==> (n - m) % MAX_TICKET == 0
  {
    var p, a := TicketParts(m);
    var q, b := TicketParts(n);
    if b >= a { Remainder(n - m, q - p, b - a); } else { Remainder(n - m, q - p - 1, MAX_TICKET + b - a); }
  }

  /** An operation that carries another ticket than the current one only counts: nothing is read or stored. */
  lemma StaleOnlyCounts<V>(s: State<V>, w: Write<V>, key: string, issued: nat, now: Instant)
    requires !Current(s, issued) && !Current(s, w.issued)
    ensures Get(s, key, issued, now).1.None? && !Put(s, w).1
    ensures Get(s, key, issued, now).0 == s.(counters := Get(s, key, issued, now).0.counters)
    ensures Put(s, w).0 == s.(counters := Put(s, w).0.counters)
  {
  }

  /** A ticket is fenced off by any later change of generation; only after a whole number of wraps of the
      64-bit counter is an old ticket taken for a current one. */
  lemma {:induction false} TicketFence<V>(limits: Limits, ops: seq<Op<V>>, i: nat)
    requires limits.entries > 0 && i <= |ops| && Era(limits, ops[..i]) > 0 && Run(limits, ops).initialized
    ensures var changes := Era(limits, ops) - Era(limits, ops[..i]);
            && changes >= 0
            && (Current(Run(limits, ops), Run(limits, ops[..i]).generation) <==> changes % MAX_TICKET == 0)
  {
    EraGrows(limits, ops, i);
    GenerationIsTicket(limits, ops);
    GenerationIsTicket(limits, ops[..i]);
    TicketAlias(Era(limits, ops[..i]), Era(limits, ops));
  }

  lemma {:induction false} EraGrows<V>(limits: Limits, ops: seq<Op<V>>, i: nat)
    requires i <= |ops|
    ensures Era(limits, ops[..i]) <= Era(limits, ops)
    decreases |ops|
  {
    if i == |ops| {
      assert ops[..i] == ops;
    } else {
      EraGrows(limits, ops[..|ops| - 1], i);
      assert ops[..|ops| - 1][..i] == ops[..i];
    }
  }

  // ------------------------------------------------------------------ counters

  function Reads<V>(ops: seq<Op<V>>): nat
    decreases |ops|
  {
    if ops == [] then 0 else Reads(ops[..|ops| - 1]) + if ops[|ops| - 1].DoGet? then 1 else 0
  }

  /** When a write is accepted: a key and a value, a positive lifetime, a size that fits the byte limit alone, and the
      current ticket. */
  lemma AcceptedIff<V>(s: State<V>, w: Write<V>)
    ensures Put(s, w).1 <==>
              && w.key != "" && w.value != None && w.ttl > 0 && |w.key| + w.bytes <= s.limits.bytes
              && s.initialized && w.issued == s.generation
  {
  }

  /** Announcing the revisions in force: the same ones again change nothing; others, or any after an invalidation, start
      an empty generation under the next ticket. Either way the cache then serves exactly these revisions. */
  lemma AdvanceIs<V>(s: State<V>, revisions: Revisions)
    ensures var t := Advance(s, revisions);
            && t.initialized && t.revisions == revisions && t.limits == s.limits
            && (s.initialized && s.revisions == revisions ==> t == s)
            && (!(s.initialized && s.revisions == revisions) ==>
                  && t.entries == map[] && t.lru == [] && t.retained == 0
                  && t.generation == if s.generation == 0xFFFF_FFFF_FFFF_FFFF then 1 else s.generation + 1)
  {
  }

  /** A new cache is empty, has counted nothing, and treats every ticket as stale until revisions are announced. */
  lemma NewCache<V>(limits: Limits, key: string, w: Write<V>, issued: nat, now: Instant)
    ensures var s: State<V> := Initial(limits);
            && s.entries == map[] && s.lru == [] && s.retained == 0 && s.limits == limits && !s.initialized
            && s.counters == Counters(0, 0, 0, 0, 0, 0, 0)
            && Get(s, key, issued, now).1 == None && !Put(s, w).1
  {
  }

  /** After an invalidation every ticket is stale until revisions are announced. */
  lemma InvalidateIs<V>(s: State<V>, key: string, w: Write<V>, issued: nat, now: Instant)
    ensures var t := Invalidate(s);
            && t.entries == map[] && t.lru == [] && t.retained == 0 && !t.initialized
            && t.generation == (if s.generation == 0xFFFF_FFFF_FFFF_FFFF then 1 else s.generation + 1)
            && Get(t, key, issued, now).1 == None && !Put(t, w).1
  {
  }

  datatype Outcomes = Outcomes(
    hits: nat, misses: nat, staleReads: nat, writes: nat, staleWrites: nat, invalidations: nat)

  /** How the operations of a run came out. Announcing other revisions counts as an invalidation unless they are the
      first since the start or an invalidation. */
  function OutcomesOf<V>(limits: Limits, ops: seq<Op<V>>): Outcomes
    decreases |ops|
  {
    if ops == [] then Outcomes(0, 0, 0, 0, 0, 0)
    else
      var s, op := Run(limits, ops[..|ops| - 1]), ops[|ops| - 1];
      var o := OutcomesOf(limits, ops[..|ops| - 1]);
      match op
      case DoGet(key, issued, now) =>
        if Get(s, key, issued, now).1 != None then o.(hits := o.hits + 1)
        else if s.initialized && issued == s.generation then o.(misses := o.misses + 1)
        else o.(staleReads := o.staleReads + 1)
      case DoPut(w) =>
        if Put(s, w).1 then o.(writes := o.writes + 1)
        else if w.key != "" && w.value != None && w.ttl > 0 && |w.key| + w.bytes <= limits.bytes
        then o.(staleWrites := o.staleWrites + 1) else o
      case DoAdvance(revisions) =>
        if s.initialized && revisions != s.revisions then o.(invalidations := o.invalidations + 1) else o
      case DoInvalidate => o.(invalidations := o.invalidations + 1)
  }

  /** The counters are exactly that. */
  lemma {:induction false} CountersExact<V>(limits: Limits, ops: seq<Op<V>>)
    requires limits.entries > 0
    ensures var c := Run(limits, ops).counters;
            OutcomesOf(limits, ops)
            == Outcomes(c.hits, c.misses, c.staleReads, c.writes, c.staleWrites, c.revisionInvalidations)
    decreases |ops|
  {
    if ops != [] {
      var earlier, op := ops[..|ops| - 1], ops[|ops| - 1];
      CountersExact(limits, earlier);
      RunKeeps(limits, earlier);
      match op
      case DoPut(w) => PutCounts(Run(limits, earlier), w);
      case _ =>
    }
  }

  lemma PutCounts<V>(s: State<V>, w: Write<V>)
    ensures var c, d := s.counters, Put(s, w).0.counters;
            && d.hits == c.hits && d.misses == c.misses && d.staleReads == c.staleReads
            && d.revisionInvalidations == c.revisionInvalidations
            && d.writes == c.writes + (if Put(s, w).1 then 1 else 0)
            && d.staleWrites == c.staleWrites + (if !Put(s, w).1 && !Refused(s.limits, w) then 1 else 0)
  {
    if Put(s, w).1 { RoomCounts(Replaced(s, w.key), Size(w)); }
  }

  lemma {:induction false} RoomCounts<V>(s: State<V>, size: nat)
    ensures MakeRoom(s, size).counters == s.counters.(evictions := MakeRoom(s, size).counters.evictions)
    decreases |s.lru|
  {
    if s.lru != [] && Crowded(s, size) {
      var oldest := s.lru[|s.lru| - 1];
      if oldest !in s.entries {
        RoomCounts(s.(lru := s.lru[..|s.lru| - 1]), size);
      } else {
        RoomCounts(Erase(s, oldest).(counters := s.counters.(evictions := s.counters.evictions + 1)), size);
      }
    }
  }

  /** Every read is counted once, as a hit, a miss or a stale read; every write counted was an insertion, so
      entries now present, evictions and writes are related. */
  lemma {:induction false} CountersAccount<V>(limits: Limits, ops: seq<Op<V>>)
    requires limits.entries > 0
    ensures var c := Run(limits, ops).counters;
            c.hits + c.misses + c.staleReads == Reads(ops) && |Run(limits, ops).lru| + c.evictions <= c.writes
    decreases |ops|
  {
    if ops != [] {
      var earlier, op := ops[..|ops| - 1], ops[|ops| - 1];
      CountersAccount(limits, earlier);
      RunKeeps(limits, earlier);
      StepCounters(Run(limits, earlier), op);
    }
  }

  lemma StepCounters<V>(s: State<V>, op: Op<V>)
    requires Inv(s)
    ensures var c, d := s.counters, Step(s, op).counters;
            && d.hits + d.misses + d.staleReads == c.hits + c.misses + c.staleReads + (if op.DoGet? then 1 else 0)
            && |Step(s, op).lru| + d.evictions - d.writes <= |s.lru| + c.evictions - c.writes
  {
    match op
    case DoAdvance(revisions) =>
    case DoInvalidate =>
    case DoGet(key, issued, now) => GetCounters(s, key, issued, now);
    case DoPut(w) => PutCounters(s, w);
  }

  lemma GetCounters<V>(s: State<V>, key: string, issued: nat, now: Instant)
    requires Inv(s)
    ensures var t := Get(s, key, issued, now).0;
            && |t.lru| <= |s.lru| && t.counters.evictions == s.counters.evictions
            && t.counters.writes == s.counters.writes
            && t.counters.hits + t.counters.misses + t.counters.staleReads
               == s.counters.hits + s.counters.misses + s.counters.staleReads + 1
  {
    if key in s.entries { WithoutHeld(s.entries, s.lru, key); }
  }

  lemma PutCounters<V>(s: State<V>, w: Write<V>)
    requires Inv(s)
    ensures var c, d := s.counters, Put(s, w).0.counters;
            && d.hits == c.hits && d.misses == c.misses && d.staleReads == c.staleReads
            && |Put(s, w).0.lru| + d.evictions - d.writes <= |s.lru| + c.evictions - c.writes
  {
    if Put(s, w).1 {
      var _, _ := RoomFor(s, w);
    }
  }
}
