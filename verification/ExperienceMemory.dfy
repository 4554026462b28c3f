/** KnowledgeMemory of the dashboard example: what one telemetry frame changes. Field extraction from JSON is
    outside: a frame is given by the values the code reads from it, absent ones already defaulted. */
module ExperienceMemory {
  import opened Wrappers
  import opened Lists
  import opened Welford

  const MAX_COLUMNS := 512
  const MAX_ENEMY_TYPES := 64

  // ------------------------------------------------------------ running statistics

  datatype Stats = Stats(count: nat, mean: real, m2: real, minimum: real, maximum: real)

  const NO_STATS := Stats(0, 0.0, 0.0, 0.0, 0.0)

  function Least(a: real, b: real): real { if a < b then a else b }

  function Greatest(a: real, b: real): real { if a < b then b else a }

  function AddSample(s: Stats, x: real): Stats {
    Stats(s.count + 1, NextMean(s.count, s.mean, x), NextM2(s.count, s.mean, s.m2, x),
          if s.count == 0 then x else Least(s.minimum, x), if s.count == 0 then x else Greatest(s.maximum, x))
  }

  /** Statistics of a list of samples. */
  function Of(xs: seq<real>): Stats
    decreases |xs|
  {
    if xs == [] then NO_STATS else AddSample(Of(xs[..|xs| - 1]), xs[|xs| - 1])
  }

  // ----------------------------------------------------------------------- records

  datatype Place = Place(world: nat, stage: nat, x: nat)

  datatype Column = Column(
    rows: seq<int>, observations: nat, changes: nat, seen: nat, epoch: int, frame: int, imported: bool)

  datatype Enemy = Enemy(name: string, velocity: Stats, observations: nat)

  datatype Sighting = Sighting(kind: int, frame: int, x: real)

  datatype Jump = Jump(active: bool, bounced: bool, startFrame: int, held: nat,
                       startX: real, startFeet: real, maxHeight: real, previousDy: real)

  const NO_JUMP := Jump(false, false, 0, 0, 0.0, 0.0, 0.0, 0.0)

  datatype Flights = Flights(duration: Stats, range: Stats, height: Stats, hold: Stats, completed: nat, bounced: nat)

  const NO_FLIGHTS := Flights(NO_STATS, NO_STATS, NO_STATS, NO_STATS, 0, 0)

  /** What is forgotten at an episode boundary or describes only the last frame. */
  datatype Tracking = Tracking(
    epoch: int, frame: int, previousX: real, previousFeet: real, previousValid: bool, previousGrounded: bool,
    terminalRecorded: bool, lastEvent: string, physicalId: string, sightings: map<int, Sighting>, jump: Jump)

  const NO_TRACKING := Tracking(-1, -1, 0.0, 0.0, false, false, false, "", "", map[], NO_JUMP)

  datatype Memory = Memory(
    environment: string, columns: map<Place, Column>, enemies: map<int, Enemy>, flights: Flights,
    seenOrder: nat, observedFrames: nat, successes: nat, failures: nat, tracking: Tracking)

  function Fresh(environment: string): Memory {
    Memory(environment, map[], map[], NO_FLIGHTS, 0, 0, 0, 0, NO_TRACKING)
  }

  // ------------------------------------------------------------------------ frames

  datatype Candidate = Candidate(x: int, rows: seq<int>)

  datatype Hostile = Hostile(kind: int, slot: int, name: string, x: real)

  datatype Telemetry = Telemetry(
    epoch: int, frame: int, identity: Option<string>, world: Option<int>, stage: Option<int>,
    x: real, feet: real, grounded: bool, normalMovement: bool, jumping: bool,
    episodeDead: bool, episodeClear: bool, sessionDead: bool, sessionClear: bool,
    lifecycle: Option<string>, collision: bool, left: int, right: int,
    candidates: seq<Candidate>, hostiles: seq<Hostile>)

  predicate Dead(o: Telemetry) { o.episodeDead || o.sessionDead }

  predicate Cleared(o: Telemetry) { o.episodeClear || o.sessionClear }

  predicate OutcomeDead(o: Telemetry) { if o.lifecycle.Some? then o.sessionDead else Dead(o) }

  predicate OutcomeClear(o: Telemetry) { if o.lifecycle.Some? then o.sessionClear else Cleared(o) }

  /** The name of a terminal session event, or nothing. */
  function EventOf(o: Telemetry): string {
    if (o.sessionDead || o.sessionClear) && o.lifecycle.Some?
    then o.lifecycle.value + (if o.sessionClear then ":clear" else ":death")
    else ""
  }

  predicate KnownLevel(o: Telemetry) {
    o.world.Some? && o.stage.Some? && o.world.value >= 1 && o.stage.value >= 1
  }

  // ------------------------------------------------------------------ the episode

  function ResetEpisode(t: Tracking, epoch: int): Tracking {
    t.(epoch := epoch, frame := -1, previousValid := false, terminalRecorded := false, sightings := map[],
      jump := NO_JUMP)
  }

  function Identified(t: Tracking, o: Telemetry): Tracking {
    match o.identity
    case Some(id) => (if id != t.physicalId then ResetEpisode(t, o.epoch) else t.(epoch := o.epoch)).(physicalId := id)
    case None =>
      var unnamed := t.(physicalId := "");
      if o.epoch != t.epoch then ResetEpisode(unnamed, o.epoch) else unnamed
  }

  predicate Stale(t: Tracking, o: Telemetry) { o.frame < 0 || o.frame <= t.frame }

  // ------------------------------------------------------------- collision columns

  const ROWS := [32, 48, 64, 80, 96, 112, 128, 144, 160, 176, 192, 208, 224]

  /** The rows valid_rows returns: those named, each once, in order. */
  function RowsOf(rows: seq<int>): seq<int> {
    Filter(ROWS, (y: int) => y in rows)
  }

  predicate ValidRows(rows: seq<int>) {
    |rows| <= 13 && forall i :: 0 <= i < |rows| ==> rows[i] in ROWS
  }

  predicate Eligible(o: Telemetry, x: int) {
    !(x < o.left || x + 16 > o.right || x < 0 || x % 16 != 0)
  }

  /** One column observed again, or for the first time. */
  function Observed(before: Option<Column>, rows: seq<int>, o: Telemetry, seen: nat): Column {
    match before
    case None => Column(RowsOf(rows), 1, 0, seen, o.epoch, o.frame, false)
    case Some(c) =>
      var changed := c.observations > 0 && c.rows != RowsOf(rows);
      Column(RowsOf(rows), c.observations + 1, c.changes + (if changed then 1 else 0), seen, o.epoch, o.frame, false)
  }

  function Lookup<K, V>(m: map<K, V>, key: K): Option<V> {
    if key in m then Some(m[key]) else None
  }

  datatype Scan = Scan(columns: map<Place, Column>, seenOrder: nat, threw: bool)

  /** The candidates in turn; an invalid row list throws and leaves what was stored before it. */
  function ScanAll(columns: map<Place, Column>, seenOrder: nat, o: Telemetry, candidates: seq<Candidate>): Scan
    requires KnownLevel(o)
    decreases |candidates|
  {
    if candidates == [] then Scan(columns, seenOrder, false)
    else ScanNext(ScanAll(columns, seenOrder, o, candidates[..|candidates| - 1]), o, candidates[|candidates| - 1])
  }

  function ScanNext(s: Scan, o: Telemetry, c: Candidate): Scan
    requires KnownLevel(o)
  {
    if s.threw || !Eligible(o, c.x) then s
    else if !ValidRows(c.rows) then s.(threw := true)
    else
      var place := Place(o.world.value, o.stage.value, c.x);
      Scan(s.columns[place := Observed(Lookup(s.columns, place), c.rows, o, s.seenOrder + 1)], s.seenOrder + 1, false)
  }

  /** Eviction: as many least recently seen columns go as the limit demands. Among columns last seen equally
      early, which happens only after an import, any may go first. */
  ghost predicate Trimmed(before: map<Place, Column>, after: map<Place, Column>) {
    && (forall p :: p in after ==> p in before && after[p] == before[p])
    && |after| == (if |before| > MAX_COLUMNS then MAX_COLUMNS else |before|)
    && (forall p, q :: p in before && p !in after && q in after ==> before[p].seen <= before[q].seen)
  }

  // ----------------------------------------------------------------------- enemies

  predicate Countable(h: Hostile) { 0 <= h.kind <= 255 && 0 <= h.slot <= 5 }

  /** The velocity sample a sighting gives together with the previous one in its slot. */
  function Velocity(previous: Option<Sighting>, h: Hostile, frame: int): Option<real> {
    match previous
    case None => None
    case Some(p) =>
      var elapsed := frame - p.frame;
      if p.kind == h.kind && 0 < elapsed <= 4 && Abs(h.x - p.x) <= 16.0 * elapsed as real
      then Some((h.x - p.x) / elapsed as real) else None
  }

  function Met(before: Option<Enemy>, h: Hostile, velocity: Option<real>): Enemy {
    var known := match before case Some(e) => e case None => Enemy("", NO_STATS, 0);
    Enemy(h.name, if velocity.Some? then AddSample(known.velocity, velocity.value) else known.velocity,
          known.observations + 1)
  }

  datatype Meeting = Meeting(enemies: map<int, Enemy>, sightings: map<int, Sighting>)

  function MeetAll(enemies: map<int, Enemy>, previous: map<int, Sighting>, hostiles: seq<Hostile>, frame: int): Meeting
    decreases |hostiles|
  {
    if hostiles == [] then Meeting(enemies, map[])
    else
      var front, last := hostiles[..|hostiles| - 1], hostiles[|hostiles| - 1];
      MeetNext(MeetAll(enemies, previous, front, frame), previous, last, frame)
  }

  function MeetNext(m: Meeting, previous: map<int, Sighting>, h: Hostile, frame: int): Meeting {
    if !Countable(h) || (h.kind !in m.enemies && |m.enemies| >= MAX_ENEMY_TYPES) then m
    else
      var velocity := Velocity(Lookup(previous, h.slot), h, frame);
      Meeting(m.enemies[h.kind := Met(Lookup(m.enemies, h.kind), h, velocity)],
              m.sightings[h.slot := Sighting(h.kind, frame, h.x)])
  }

  // ------------------------------------------------------------------------- jumps

  /** A jump begins when the ground is left between consecutive frames in normal movement. */
  function Begun(t: Tracking, o: Telemetry): Jump {
    if o.frame - t.frame <= 4 && t.previousGrounded && !o.grounded && o.normalMovement
    then Jump(true, false, t.frame, 0, t.previousX, t.previousFeet, 0.0, 0.0)
    else t.jump
  }

  function Followed(j: Jump, t: Tracking, o: Telemetry): Jump {
    var dy := o.feet - t.previousFeet;
    j.(maxHeight := Greatest(j.maxHeight, j.startFeet - o.feet),
       bounced := j.bounced || (j.previousDy > 1.0 && dy < -1.0),
       previousDy := if Abs(dy) > 1.0 then dy else j.previousDy,
       held := if o.jumping then j.held + 1 else j.held)
  }

  /** A completed flight is counted; only one that did not bounce is measured. */
  function Landed(f: Flights, j: Jump, o: Telemetry): Flights {
    if j.bounced then f.(completed := f.completed + 1, bounced := f.bounced + 1)
    else
      Flights(AddSample(f.duration, (o.frame - j.startFrame) as real), AddSample(f.range, o.x - j.startX),
              AddSample(f.height, j.maxHeight), AddSample(f.hold, j.held as real), f.completed + 1, f.bounced)
  }

  function Flown(f: Flights, t: Tracking, o: Telemetry): (Flights, Jump) {
    if !t.previousValid || Dead(o) || Cleared(o) then (f, t.jump)
    else
      var j := Begun(t, o);
      if !j.active then (f, j)
      else if o.frame - t.frame > 4 then (f, j.(active := false))
      else
        var followed := Followed(j, t, o);
        if o.grounded then (Landed(f, followed, o), followed.(active := false)) else (f, followed)
  }

  // ---------------------------------------------------------------------- outcomes

  /** Whether a terminal observation is a new outcome: a session event not the last one counted, or without a
      session the first terminal of the episode. */
  predicate NewOutcome(t: Tracking, o: Telemetry) {
    && (OutcomeDead(o) || OutcomeClear(o))
    && (if o.lifecycle.Some? then EventOf(o) != "" && EventOf(o) != t.lastEvent else !t.terminalRecorded)
  }

  function Ended(t: Tracking, o: Telemetry): Tracking {
    if OutcomeDead(o) || OutcomeClear(o)
    then t.(lastEvent := if EventOf(o) != "" then EventOf(o) else t.lastEvent, terminalRecorded := true)
    else t
  }

  function Finished(t: Tracking, o: Telemetry): Tracking {
    t.(jump := if Dead(o) || Cleared(o) then t.jump.(active := false) else t.jump,
       previousX := o.x, previousFeet := o.feet, previousGrounded := o.grounded, previousValid := true,
         frame := o.frame)
  }

  // --------------------------------------------------------------- a whole observation

  function Scanned(s: Memory, o: Telemetry): Scan
    requires KnownLevel(o)
  {
    if o.collision && !Dead(o) then ScanAll(s.columns, s.seenOrder, o, o.candidates)
      else Scan(s.columns, s.seenOrder, false)
  }

  /** The columns a frame may leave. */
  ghost predicate Leaves(s: Memory, o: Telemetry, kept: map<Place, Column>) {
    !Stale(Identified(s.tracking, o), o) && KnownLevel(o) ==>
      var scan := Scanned(s, o);
      if o.collision && !Dead(o) && !scan.threw then Trimmed(scan.columns, kept) else kept == scan.columns
  }

  /** Everything after the columns, for a frame that did not throw. */
  function Settled(s: Memory, o: Telemetry): Memory {
    var t := s.tracking;
    var meeting := MeetAll(s.enemies, t.sightings, o.hostiles, o.frame);
    var (flights, jump) := Flown(s.flights, t, o);
    var isNew := NewOutcome(t, o);
    s.(enemies := meeting.enemies, flights := flights,
       successes := s.successes + (if isNew && OutcomeClear(o) then 1 else 0),
       failures := s.failures + (if isNew && !OutcomeClear(o) then 1 else 0),
       tracking := Finished(Ended(t.(sightings := meeting.sightings, jump := jump), o), o))
  }

  function Observe(s: Memory, o: Telemetry, kept: map<Place, Column>): Memory {
    var t := Identified(s.tracking, o);
    if Stale(t, o) then s.(tracking := t)
    else if !KnownLevel(o) then
      s.(tracking := t.(previousValid := false, sightings := map[], jump := NO_JUMP, frame := o.frame))
    else
      var scan := Scanned(s, o);
      var counted := s.(tracking := t, observedFrames := s.observedFrames + 1, columns := kept,
        seenOrder := scan.seenOrder);
      if scan.threw then counted else Settled(counted, o)
  }
}
