/** The experience memory as the object that observes frames and loads documents in place. */
module ExperienceStore {
  import opened Wrappers
  import opened Lists
  import opened ExperienceMemory
  import opened ExperiencePersistence

  class KnowledgeMemory {
    const environment: string
    var columns: map<Place, Column>
    var enemies: map<int, Enemy>
    var flights: Flights
    var seenOrder: nat
    var observedFrames: nat
    var successes: nat
    var failures: nat
    var tracking: Tracking

    ghost function Model(): Memory
      reads this
    {
      Memory(environment, columns, enemies, flights, seenOrder, observedFrames, successes, failures, tracking)
    }

    constructor (environment: string)
      ensures Model() == Fresh(environment)
    {
      this.environment := environment;
      columns, enemies, flights := map[], map[], NO_FLIGHTS;
      seenOrder, observedFrames, successes, failures := 0, 0, 0, 0;
      tracking := NO_TRACKING;
    }

    /** Everything one frame does, in the order of the source. */
    method ObserveFrame(o: Telemetry) returns (threw: bool)
      modifies this
      ensures exists kept :: Leaves(old(Model()), o, kept) && Model() == Observe(old(Model()), o, kept)
    {
      ghost var before := Model();
      threw := false;
      tracking := Identified(tracking, o);
      if o.frame < 0 || o.frame <= tracking.frame {
        assert Leaves(before, o, columns) && Model() == Observe(before, o, columns);
        return;
      }
      if !KnownLevel(o) {
        tracking := tracking.(previousValid := false, sightings := map[], jump := NO_JUMP, frame := o.frame);
        assert Leaves(before, o, columns) && Model() == Observe(before, o, columns);
        return;
      }
      observedFrames := observedFrames + 1;
      threw := UpdateColumns(o, before);
      ghost var kept := columns;
      if !threw { Settle(o); }
      assert Model() == Observe(before, o, kept);
    }

    method UpdateColumns(o: Telemetry, ghost before: Memory) returns (threw: bool)
      requires KnownLevel(o) && before.columns == columns && before.seenOrder == seenOrder
      modifies this`columns, this`seenOrder
      ensures Leaves(before, o, columns) && threw == Scanned(before, o).threw
      ensures seenOrder == Scanned(before, o).seenOrder
    {
      threw := false;
      if o.collision && !Dead(o) {
        threw := ScanColumns(o);
        if !threw { EvictColumns(); }
      }
    }

    method ScanColumns(o: Telemetry) returns (threw: bool)
      requires KnownLevel(o)
      modifies this`columns, this`seenOrder
      ensures Scan(columns, seenOrder, threw) == ScanAll(old(columns), old(seenOrder), o, o.candidates)
    {
      threw := false;
      for i := 0 to |o.candidates|
        invariant Scan(columns, seenOrder, threw) == ScanAll(old(columns), old(seenOrder), o, o.candidates[..i])
        invariant !threw
      {
        var c := o.candidates[i];
        assert o.candidates[..i + 1][..i] == o.candidates[..i];
        if Eligible(o, c.x) {
          if !ValidRows(c.rows) {
            threw := true;
            ThrewStays(old(columns), old(seenOrder), o, o.candidates, i + 1);
            return;
          }
          var place := Place(o.world.value, o.stage.value, c.x);
          seenOrder := seenOrder + 1;
          columns := columns[place := Observed(Lookup(columns, place), c.rows, o, seenOrder)];
        }
      }
      assert o.candidates[..|o.candidates|] == o.candidates;
    }

    method EvictColumns()
      modifies this`columns
      ensures Trimmed(old(columns), columns)
    {
      while |columns| > MAX_COLUMNS
        invariant Cut(old(columns), columns)
        invariant |columns| >= MAX_COLUMNS || columns == old(columns)
        decreases |columns|
      {
        var oldest := FindOldest(columns);
        CutStep(old(columns), columns, oldest);
        columns := columns - {oldest};
      }
    }

    method Settle(o: Telemetry)
      modifies this`enemies, this`flights, this`successes, this`failures, this`tracking
      ensures Model() == Settled(old(Model()), o)
    {
      var sightings := MeetEnemies(o);
      var flown := Flown(flights, tracking, o);
      flights := flown.0;
      tracking := tracking.(sightings := sightings, jump := flown.1);
      if OutcomeDead(o) || OutcomeClear(o) {
        if NewOutcome(tracking, o) {
          if OutcomeClear(o) { successes := successes + 1; } else { failures := failures + 1; }
        }
        if EventOf(o) != "" { tracking := tracking.(lastEvent := EventOf(o)); }
        tracking := tracking.(terminalRecorded := true);
      }
      tracking := Finished(tracking, o);
    }

    method MeetEnemies(o: Telemetry) returns (sightings: map<int, Sighting>)
      modifies this`enemies
      ensures Meeting(enemies, sightings) == MeetAll(old(enemies), tracking.sightings, o.hostiles, o.frame)
    {
      sightings := map[];
      for i := 0 to |o.hostiles|
        invariant Meeting(enemies, sightings) == MeetAll(old(enemies), tracking.sightings, o.hostiles[..i], o.frame)
      {
        var h := o.hostiles[i];
        assert o.hostiles[..i + 1][..i] == o.hostiles[..i];
        if Countable(h) && (h.kind in enemies || |enemies| < MAX_ENEMY_TYPES) {
          var velocity := Velocity(Lookup(tracking.sightings, h.slot), h, o.frame);
          enemies := enemies[h.kind := Met(Lookup(enemies, h.kind), h, velocity)];
          sightings := sightings[h.slot := Sighting(h.kind, o.frame, h.x)];
        }
      }
      assert o.hostiles[..|o.hostiles|] == o.hostiles;
    }

    /** A document replaces the memory only after every field has been validated. */
    method LoadDocument(d: Document) returns (ok: bool)
      modifies this
      ensures ok <==> Import(environment, d).Some?
      ensures Model() == if ok then Import(environment, d).value else old(Model())
    {
      if d.schema != SCHEMA || d.version != 1 || d.environment != environment { return false; }
      if |d.columns| > MAX_COLUMNS || |d.enemies| > MAX_ENEMY_TYPES { return false; }
      var loaded, newest := ReadColumns(d.columns);
      if loaded.None? { return false; }
      var types := ReadEnemies(d.enemies);
      if types.None? { return false; }
      var flown := LoadFlights(d);
      if flown.None? { return false; }
      if d.observedFrames > LIMIT || d.successes > d.observedFrames || d.failures > d.observedFrames { return false; }
      columns, enemies, flights, seenOrder := loaded.value, types.value, flown.value, newest;
      observedFrames, successes, failures, tracking := d.observedFrames, d.successes, d.failures, NO_TRACKING;
      ok := true;
    }
  }

  /** Once a candidate threw, nothing after it counts. */
  lemma {:induction false} ThrewStays(columns: map<Place, Column>, seenOrder: nat, o: Telemetry,
    candidates: seq<Candidate>, i: nat)
    requires KnownLevel(o) && i <= |candidates| && ScanAll(columns, seenOrder, o, candidates[..i]).threw
    ensures ScanAll(columns, seenOrder, o, candidates) == ScanAll(columns, seenOrder, o, candidates[..i])
    decreases |candidates|
  {
    if i == |candidates| {
      assert candidates[..i] == candidates;
    } else {
      assert candidates[..|candidates| - 1][..i] == candidates[..i];
      ThrewStays(columns, seenOrder, o, candidates[..|candidates| - 1], i);
    }
  }

  /** What is left after some evictions: everything gone was seen no later than anything left. */
  ghost predicate Cut(before: map<Place, Column>, after: map<Place, Column>) {
    && (forall p :: p in after ==> p in before && after[p] == before[p])
    && (forall p, q :: p in before && p !in after && q in after ==> before[p].seen <= before[q].seen)
  }

  lemma CutStep(before: map<Place, Column>, now: map<Place, Column>, oldest: Place)
    requires Cut(before, now) && oldest in now && forall p :: p in now ==> now[oldest].seen <= now[p].seen
    ensures Cut(before, now - {oldest}) && |now - {oldest}| == |now| - 1
  {
  }

  /** std::min_element by the order last seen. */
  method FindOldest(columns: map<Place, Column>) returns (oldest: Place)
    requires |columns| > 0
    ensures oldest in columns && forall p :: p in columns ==> columns[oldest].seen <= columns[p].seen
  {
    var rest := columns.Keys;
    assert rest != {};
    oldest :| oldest in rest;
    while rest != {}
      invariant rest <= columns.Keys && oldest in columns
      invariant forall p :: p in columns && p !in rest ==> columns[oldest].seen <= columns[p].seen
      decreases |rest|
    {
      var p :| p in rest;
      if columns[p].seen < columns[oldest].seen { oldest := p; }
      rest := rest - {p};
    }
  }

  method ReadColumns(docs: seq<ColumnDoc>) returns (loaded: Option<map<Place, Column>>, newest: nat)
    ensures loaded == LoadColumns(docs) && (loaded.Some? ==> newest == NewestSeen(docs))
  {
    var columns: map<Place, Column> := map[];
    newest := 0;
    for i := 0 to |docs|
      invariant LoadColumns(docs[..i]) == Some(columns) && newest == NewestSeen(docs[..i])
    {
      var d := docs[i];
      assert docs[..i + 1][..i] == docs[..i];
      if !ReadableColumn(d) {
        ColumnsRefused(docs, i + 1);
        return None, newest;
      }
      if d.seen > newest { newest := d.seen; }
      columns := columns[Place(d.world, d.stage, d.x) := ReadColumn(d)];
    }
    assert docs[..|docs|] == docs;
    loaded := Some(columns);
  }

  lemma {:induction false} ColumnsRefused(docs: seq<ColumnDoc>, i: nat)
    requires i <= |docs| && LoadColumns(docs[..i]).None?
    ensures LoadColumns(docs).None?
    decreases |docs|
  {
    if i == |docs| {
      assert docs[..i] == docs;
    } else {
      assert docs[..|docs| - 1][..i] == docs[..i];
      ColumnsRefused(docs[..|docs| - 1], i);
    }
  }

  method ReadEnemies(docs: seq<EnemyDoc>) returns (loaded: Option<map<int, Enemy>>)
    ensures loaded == LoadEnemies(docs)
  {
    var enemies: map<int, Enemy> := map[];
    for i := 0 to |docs|
      invariant LoadEnemies(docs[..i]) == Some(enemies)
    {
      assert docs[..i + 1][..i] == docs[..i];
      var enemy := ReadEnemy(docs[i]);
      if enemy.None? {
        EnemiesRefused(docs, i + 1);
        return None;
      }
      enemies := enemies[docs[i].kind := enemy.value];
    }
    assert docs[..|docs|] == docs;
    loaded := Some(enemies);
  }

  lemma {:induction false} EnemiesRefused(docs: seq<EnemyDoc>, i: nat)
    requires i <= |docs| && LoadEnemies(docs[..i]).None?
    ensures LoadEnemies(docs).None?
    decreases |docs|
  {
    if i == |docs| {
      assert docs[..i] == docs;
    } else {
      assert docs[..|docs| - 1][..i] == docs[..i];
      EnemiesRefused(docs[..|docs| - 1], i);
    }
  }
}
