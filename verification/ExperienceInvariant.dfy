/** What every telemetry frame keeps true of the experience memory, and what its statistics mean. */
module ExperienceInvariant {
  import opened Wrappers
  import opened Lists
  import opened Welford
  import opened ExperienceMemory

  // -------------------------------------------------------------------- statistics

  predicate StatsOk(s: Stats) {
    if s.count == 0 then s == NO_STATS else s.minimum <= s.mean <= s.maximum && s.m2 >= 0.0
  }

  /** A weighted step towards a sample stays between the old mean and the sample, and m2 never shrinks. */
  lemma AddKeeps(s: Stats, x: real)
    requires StatsOk(s)
    ensures StatsOk(AddSample(s, x))
  {
    var k := (s.count + 1) as real;
    var step := Division(x - s.mean, k);
    if s.count == 0 {
      assert k == 1.0;
    } else {
      StepInside(x - s.mean, step, k);
      StepProduct(x - s.mean, step);
    }
  }

  lemma StepInside(delta: real, step: real, k: real)
    requires k >= 1.0 && step * k == delta
    ensures delta >= 0.0 ==> 0.0 <= step <= delta
    ensures delta <= 0.0 ==> delta <= step <= 0.0
  {
  }

  lemma StepProduct(delta: real, step: real)
    requires delta >= 0.0 ==> 0.0 <= step <= delta
    requires delta <= 0.0 ==> delta <= step <= 0.0
    ensures delta * (delta - step) >= 0.0
  {
  }

  /** Statistics of a list of samples are its count, mean, sum of squared deviations, least and greatest sample. */
  lemma StatsExact(xs: seq<real>)
    ensures Of(xs).count == |xs| && Exact(xs, Of(xs).mean, Of(xs).m2)
    ensures forall i :: 0 <= i < |xs| ==> Of(xs).minimum <= xs[i] <= Of(xs).maximum
    ensures xs != [] ==> Of(xs).minimum in xs && Of(xs).maximum in xs
  {
    MomentsExact(xs);
    ExtremesExact(xs);
  }

  lemma {:induction false} MomentsExact(xs: seq<real>)
    ensures Of(xs).count == |xs| && Exact(xs, Of(xs).mean, Of(xs).m2)
    decreases |xs|
  {
    if xs != [] {
      var front, x := xs[..|xs| - 1], xs[|xs| - 1];
      assert xs == front + [x];
      MomentsExact(front);
      UpdateExact(front, Of(front).mean, Of(front).m2, x);
    }
  }

  lemma {:induction false} ExtremesExact(xs: seq<real>)
    ensures Of(xs).count == |xs|
    ensures forall i :: 0 <= i < |xs| ==> Of(xs).minimum <= xs[i] <= Of(xs).maximum
    ensures xs != [] ==> Of(xs).minimum in xs && Of(xs).maximum in xs
    decreases |xs|
  {
    if xs != [] {
      var front, x := xs[..|xs| - 1], xs[|xs| - 1];
      assert xs == front + [x];
      ExtremesExact(front);
      ExtremesNext(front, Of(front), x);
    }
  }

  lemma ExtremesNext(front: seq<real>, s: Stats, x: real)
    requires s.count == |front|
    requires front != [] ==> s.minimum in front && s.maximum in front
    requires forall i :: 0 <= i < |front| ==> s.minimum <= front[i] <= s.maximum
    ensures var t := AddSample(s, x);
            && (forall i :: 0 <= i <= |front| ==> t.minimum <= (front + [x])[i] <= t.maximum)
            && t.minimum in front + [x] && t.maximum in front + [x]
  {
  }

  // --------------------------------------------------------------------- invariant

  predicate FlightsOk(f: Flights) {
    && StatsOk(f.duration) && StatsOk(f.range) && StatsOk(f.height) && StatsOk(f.hold)
    && f.duration.count == f.range.count == f.height.count == f.hold.count
    && f.duration.count + f.bounced == f.completed
  }

  predicate ColumnOk(c: Column) {
    c.rows == RowsOf(c.rows) && c.observations >= 1 && c.changes <= c.observations
  }

  ghost predicate ColumnsOk(columns: map<Place, Column>) {
    forall p :: p in columns ==> p.world >= 1 && p.stage >= 1 && p.x % 16 == 0 && ColumnOk(columns[p])
  }

  ghost predicate EnemiesOk(enemies: map<int, Enemy>) {
    |enemies| <= MAX_ENEMY_TYPES && forall k :: k in enemies ==> 0 <= k <= 255 && StatsOk(enemies[k].velocity)
  }

  ghost predicate Inv(s: Memory) {
    && ColumnsOk(s.columns) && EnemiesOk(s.enemies) && FlightsOk(s.flights)
    && s.successes <= s.observedFrames && s.failures <= s.observedFrames
  }

  /** Sorting and deduplicating rows twice is doing it once, and the result is a valid row list. */
  lemma RowsOnce(rows: seq<int>)
    ensures RowsOf(RowsOf(rows)) == RowsOf(rows) && ValidRows(RowsOf(rows))
  {
    var named := (y: int) => y in rows;
    var again := (y: int) => y in RowsOf(rows);
    forall y ensures again(y) <==> y in ROWS && named(y) { FilterMember(ROWS, named, y); }
    FilterSame(ROWS, again, named);
  }

  lemma {:induction false} ScanKeeps(columns: map<Place, Column>, seenOrder: nat, o: Telemetry,
    candidates: seq<Candidate>)
    requires KnownLevel(o) && ColumnsOk(columns)
    ensures ColumnsOk(ScanAll(columns, seenOrder, o, candidates).columns)
    decreases |candidates|
  {
    if candidates != [] {
      var front := candidates[..|candidates| - 1];
      ScanKeeps(columns, seenOrder, o, front);
      RowsOnce(candidates[|candidates| - 1].rows);
    }
  }

  lemma {:induction false} MeetKeeps(enemies: map<int, Enemy>, previous: map<int, Sighting>, hostiles: seq<Hostile>,
    frame: int)
    requires EnemiesOk(enemies)
    ensures EnemiesOk(MeetAll(enemies, previous, hostiles, frame).enemies)
    decreases |hostiles|
  {
    if hostiles != [] {
      var m, h := MeetAll(enemies, previous, hostiles[..|hostiles| - 1], frame), hostiles[|hostiles| - 1];
      MeetKeeps(enemies, previous, hostiles[..|hostiles| - 1], frame);
      if Countable(h) && (h.kind in m.enemies || |m.enemies| < MAX_ENEMY_TYPES) {
        MetKeeps(m.enemies, h, Velocity(Lookup(previous, h.slot), h, frame));
      }
    }
  }

  lemma MetKeeps(enemies: map<int, Enemy>, h: Hostile, velocity: Option<real>)
    requires EnemiesOk(enemies) && Countable(h) && (h.kind in enemies || |enemies| < MAX_ENEMY_TYPES)
    ensures EnemiesOk(enemies[h.kind := Met(Lookup(enemies, h.kind), h, velocity)])
  {
    var known := if h.kind in enemies then enemies[h.kind].velocity else NO_STATS;
    if velocity.Some? { AddKeeps(known, velocity.value); }
    var after := enemies[h.kind := Met(Lookup(enemies, h.kind), h, velocity)];
    assert after.Keys == enemies.Keys + {h.kind};
    if h.kind in enemies { assert after.Keys == enemies.Keys; }
  }

  lemma FlownKeeps(f: Flights, t: Tracking, o: Telemetry)
    requires FlightsOk(f)
    ensures FlightsOk(Flown(f, t, o).0)
  {
    var j := Followed(Begun(t, o), t, o);
    AddKeeps(f.duration, (o.frame - j.startFrame) as real);
    AddKeeps(f.range, o.x - j.startX);
    AddKeeps(f.height, j.maxHeight);
    AddKeeps(f.hold, j.held as real);
  }

  /** Every frame keeps the invariant, whatever it reports and even when it throws half way. */
  lemma ObserveKeeps(s: Memory, o: Telemetry, kept: map<Place, Column>)
    requires Inv(s) && Leaves(s, o, kept)
    ensures Inv(Observe(s, o, kept)) && Observe(s, o, kept).environment == s.environment
  {
    var t := Identified(s.tracking, o);
    if !Stale(t, o) && KnownLevel(o) {
      ScanKeeps(s.columns, s.seenOrder, o, o.candidates);
      assert ColumnsOk(kept);
      MeetKeeps(s.enemies, t.sightings, o.hostiles, o.frame);
      FlownKeeps(s.flights, t, o);
    }
  }

  /** How an observed frame that does not throw is counted: terminal by what the session says when it has a
      lifecycle, otherwise by what either says; not counted again when it is the event counted last or, without a
      lifecycle, when the episode has its outcome; a clear is a success, any other terminal frame a failure. */
  lemma OutcomeCounted(s: Memory, o: Telemetry, kept: map<Place, Column>)
    requires KnownLevel(o) && !Stale(Identified(s.tracking, o), o) && !Scanned(s, o).threw
    ensures var t := Identified(s.tracking, o);
            var dead := o.sessionDead || (o.lifecycle == None && o.episodeDead);
            var clear := o.sessionClear || (o.lifecycle == None && o.episodeClear);
            var counted := match o.lifecycle
              case None => (dead || clear) && !t.terminalRecorded
              case Some(life) =>
                (dead || clear) && t.lastEvent != life + if o.sessionClear then ":clear" else ":death";
            var after := Observe(s, o, kept);
            && after.observedFrames == s.observedFrames + 1
            && after.successes == s.successes + (if counted && clear then 1 else 0)
            && after.failures == s.failures + (if counted && !clear then 1 else 0)
  {
  }

  /** A session event is one outcome however often it is observed in a row. */
  lemma EventCountsOnce(s: Memory, o: Telemetry, kept: map<Place, Column>, again: Telemetry, kept2: map<Place, Column>)
    requires KnownLevel(o) && !Stale(Identified(s.tracking, o), o) && !Scanned(s, o).threw
    requires EventOf(o) != "" && EventOf(again) == EventOf(o)
    ensures var once := Observe(s, o, kept);
            var twice := Observe(once, again, kept2);
            once.successes + once.failures <= s.successes + s.failures + 1
            && twice.successes == once.successes && twice.failures == once.failures
  {
    var once := Observe(s, o, kept);
    assert once.tracking.lastEvent == EventOf(o);
    assert Identified(once.tracking, again).lastEvent == EventOf(o);
  }
}
