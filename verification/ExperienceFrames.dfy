/** What one telemetry frame means to the experience memory, part by part and by the values observed: episodes,
    collision columns, enemies, and flights measured over runs of frames. */
module ExperienceFrames {
  import opened Wrappers
  import opened Lists
  import opened ExperienceMemory
  import opened ExperienceInvariant

  // ------------------------------------------------------------------- episodes

  /** A frame starts an episode when it names another physical session than the last one or, without a name, another
      epoch. Starting one forgets frame, position, outcome, sightings and jump, and nothing else. */
  lemma EpisodeStarts(t: Tracking, o: Telemetry)
    ensures var u := Identified(t, o);
            var starts := match o.identity case Some(id) => id != t.physicalId case None => o.epoch != t.epoch;
            && u.epoch == o.epoch && u.physicalId == (match o.identity case Some(id) => id case None => "")
            && u.lastEvent == t.lastEvent && u.previousX == t.previousX && u.previousFeet == t.previousFeet
            && (starts ==> u.frame == -1 && !u.previousValid && !u.terminalRecorded && u.sightings == map[]
                           && u.jump == Jump(false, false, 0, 0, 0.0, 0.0, 0.0, 0.0))
            && (!starts ==> u.frame == t.frame && u.previousValid == t.previousValid && u.sightings == t.sightings
                            && u.terminalRecorded == t.terminalRecorded && u.jump == t.jump)
  {
  }

  /** A fresh memory has seen nothing. */
  lemma NothingYet(environment: string)
    ensures var t := Fresh(environment).tracking;
            && t.epoch == -1 && t.frame == -1 && !t.previousValid && !t.terminalRecorded
            && t.lastEvent == "" && t.physicalId == "" && t.sightings == map[]
            && t.jump == Jump(false, false, 0, 0, 0.0, 0.0, 0.0, 0.0)
  {
  }

  /** A frame number below zero or not above the last one of the episode teaches nothing. */
  lemma OldFrame(s: Memory, o: Telemetry, kept: map<Place, Column>)
    requires o.frame < 0 || o.frame <= Identified(s.tracking, o).frame
    ensures Observe(s, o, kept) == s.(tracking := Identified(s.tracking, o))
  {
  }

  /** A frame without a known level teaches nothing and breaks the trajectory. */
  lemma UnknownLevel(s: Memory, o: Telemetry, kept: map<Place, Column>)
    requires o.frame >= 0 && o.frame > Identified(s.tracking, o).frame
    requires o.world == None || o.stage == None || o.world.value < 1 || o.stage.value < 1
    ensures Observe(s, o, kept)
         == s.(tracking := Identified(s.tracking, o).(
                 frame := o.frame, previousValid := false, sightings := map[],
                 jump := Jump(false, false, 0, 0, 0.0, 0.0, 0.0, 0.0)))
  {
  }

  /** Any other frame is counted and becomes the last one. */
  lemma LearnedFrame(s: Memory, o: Telemetry, kept: map<Place, Column>)
    requires o.frame >= 0 && o.frame > Identified(s.tracking, o).frame
    requires o.world != None && o.stage != None && o.world.value >= 1 && o.stage.value >= 1
    requires !Scanned(s, o).threw
    ensures var t := Observe(s, o, kept).tracking;
            var dead, clear := o.episodeDead || o.sessionDead, o.episodeClear || o.sessionClear;
            && Observe(s, o, kept).observedFrames == s.observedFrames + 1
            && t.frame == o.frame && t.previousValid && t.previousX == o.x && t.previousFeet == o.feet
            && t.previousGrounded == o.grounded && (dead || clear ==> !t.jump.active)
            && ((if o.lifecycle == None then dead || clear else o.sessionDead || o.sessionClear) ==> t.terminalRecorded)
  {
  }

  // ------------------------------------------------------------------- columns

  /** The rows kept of a row list: those of the thirteen screen rows 32, 48, ..., 224 that it names, each once and in
      rising order. A list naming anything else, or longer than thirteen, is invalid. */
  lemma RowsAre(rows: seq<int>)
    ensures forall y :: y in RowsOf(rows) <==> y in rows && 32 <= y <= 224 && y % 16 == 0
    ensures forall i, j :: 0 <= i < j < |RowsOf(rows)| ==> RowsOf(rows)[i] < RowsOf(rows)[j]
    ensures ValidRows(rows) <==> |rows| <= 13 && forall y :: y in rows ==> 32 <= y <= 224 && y % 16 == 0
  {
    var named := (y: int) => y in rows;
    ScreenRows();
    forall y ensures y in RowsOf(rows) <==> y in rows && 32 <= y <= 224 && y % 16 == 0 { FilterMember(ROWS, named, y); }
    FilterRises(ROWS, named);
    assert forall i :: 0 <= i < |rows| ==> rows[i] in rows;
  }

  lemma ScreenRows()
    ensures forall y :: y in ROWS <==> 32 <= y <= 224 && y % 16 == 0
    ensures forall i, j :: 0 <= i < j < |ROWS| ==> ROWS[i] < ROWS[j]
  {
    forall y | 32 <= y <= 224 && y % 16 == 0 ensures y in ROWS {
      assert ROWS[y / 16 - 2] == y;
    }
  }

  lemma {:induction false} FilterRises(s: seq<int>, p: int -> bool)
    requires forall i, j :: 0 <= i < j < |s| ==> s[i] < s[j]
    ensures forall i, j :: 0 <= i < j < |Filter(s, p)| ==> Filter(s, p)[i] < Filter(s, p)[j]
    decreases |s|
  {
    if s != [] {
      var front := s[..|s| - 1];
      FilterRises(front, p);
      forall i | 0 <= i < |Filter(front, p)| ensures Filter(front, p)[i] < s[|s| - 1] {
        assert Filter(front, p)[i] in Filter(front, p);
        FilterMember(front, p, Filter(front, p)[i]);
      }
    }
  }

  /** One candidate column after those before it. Outside the visible window or off the grid it is skipped; with an
      invalid row list the scan stops; otherwise the column of its place is seen once more, its rows replaced, and no
      other column changes. */
  lemma ColumnSeen(before: Scan, o: Telemetry, c: Candidate)
    requires KnownLevel(o) && ColumnsOk(before.columns) && !before.threw
    ensures var after := ScanNext(before, o, c);
            if c.x < o.left || c.x + 16 > o.right || c.x < 0 || c.x % 16 != 0 then after == before
            else if !ValidRows(c.rows) then after == before.(threw := true)
            else
              var place := Place(o.world.value, o.stage.value, c.x);
              var known := place in before.columns;
              && !after.threw && after.seenOrder == before.seenOrder + 1
              && after.columns == before.columns[place := Column(
                   RowsOf(c.rows),
                   if known then before.columns[place].observations + 1 else 1,
                   if !known then 0
                   else before.columns[place].changes + if before.columns[place].rows == RowsOf(c.rows) then 0 else 1,
                   before.seenOrder + 1, o.epoch, o.frame, false)]
  {
  }

  /** A scan takes the candidates one after the other, from no throw. */
  lemma ScanInTurn(columns: map<Place, Column>, seenOrder: nat, o: Telemetry, front: seq<Candidate>, c: Candidate)
    requires KnownLevel(o)
    ensures ScanAll(columns, seenOrder, o, []) == Scan(columns, seenOrder, false)
    ensures ScanAll(columns, seenOrder, o, front + [c]) == ScanNext(ScanAll(columns, seenOrder, o, front), o, c)
  {
    assert (front + [c])[..|front|] == front;
  }

  /** Columns are scanned when there is collision data and the player lives, and only then. */
  lemma WhenScanned(s: Memory, o: Telemetry)
    requires KnownLevel(o)
    ensures Scanned(s, o)
         == if o.collision && !o.episodeDead && !o.sessionDead then ScanAll(s.columns, s.seenOrder, o, o.candidates)
            else Scan(s.columns, s.seenOrder, false)
  {
  }

  /** The memory holds at most 512 columns after a frame that scanned them all, and loses those seen least recently. */
  lemma KeptColumns(s: Memory, o: Telemetry, kept: map<Place, Column>)
    requires KnownLevel(o) && !Stale(Identified(s.tracking, o), o) && Leaves(s, o, kept)
    requires o.collision && !o.episodeDead && !o.sessionDead && !Scanned(s, o).threw
    ensures var all := Scanned(s, o).columns;
            && |kept| == (if |all| > 512 then 512 else |all|)
            && (forall p :: p in kept ==> p in all && kept[p] == all[p])
            && (forall p, q :: p in all && p !in kept && q in kept ==> all[p].seen <= all[q].seen)
  {
  }

  // ------------------------------------------------------------------- enemies

  /** One enemy after those before it. Kinds 0 to 255 in slots 0 to 5 count, new kinds only while fewer than 64 are
      known; the kind is met once more under its latest name, and no other kind changes. */
  lemma EnemyMet(before: Meeting, previous: map<int, Sighting>, h: Hostile, frame: int)
    ensures var after := MeetNext(before, previous, h, frame);
            var known := h.kind in before.enemies;
            if h.kind < 0 || h.kind > 255 || h.slot < 0 || h.slot > 5 || (!known && |before.enemies| >= 64)
            then after == before
            else
              var sample := VelocitySample(previous, h, frame);
              var old_ := if known then before.enemies[h.kind] else Enemy("", Stats(0, 0.0, 0.0, 0.0, 0.0), 0);
              && after.sightings == before.sightings[h.slot := Sighting(h.kind, frame, h.x)]
              && after.enemies == before.enemies[h.kind := Enemy(
                   h.name, if sample != None then AddSample(old_.velocity, sample.value) else old_.velocity,
                   old_.observations + 1)]
  {
    SampledIs(previous, h, frame);
  }

  /** A velocity needs a sighting of the same kind in the same slot, one to four frames ago and at most sixteen pixels
      away for each of them; it is the distance for each frame. */
  ghost function VelocitySample(previous: map<int, Sighting>, h: Hostile, frame: int): Option<real> {
    if h.slot !in previous || previous[h.slot].kind != h.kind then None
    else
      var elapsed, moved := frame - previous[h.slot].frame, h.x - previous[h.slot].x;
      if elapsed < 1 || elapsed > 4 || moved > 16.0 * elapsed as real || -moved > 16.0 * elapsed as real then None
      else Some(moved / elapsed as real)
  }

  lemma SampledIs(previous: map<int, Sighting>, h: Hostile, frame: int)
    ensures Velocity(Lookup(previous, h.slot), h, frame) == VelocitySample(previous, h, frame)
  {
  }

  lemma MeetInTurn(enemies: map<int, Enemy>, previous: map<int, Sighting>, front: seq<Hostile>, h: Hostile, frame: int)
    ensures MeetAll(enemies, previous, [], frame) == Meeting(enemies, map[])
    ensures MeetAll(enemies, previous, front + [h], frame)
         == MeetNext(MeetAll(enemies, previous, front, frame), previous, h, frame)
  {
    assert (front + [h])[..|front|] == front;
  }

  // ------------------------------------------------------------------- flights

  /** The player is off the ground in this frame, which follows the last one closely and ends nothing. */
  predicate InAir(o: Telemetry, last: int) {
    0 < o.frame - last <= 4 && !o.grounded && !o.episodeDead && !o.sessionDead && !o.episodeClear && !o.sessionClear
  }

  /** What the frames of a flight leave behind: the tracking after them. */
  function Flying(t: Tracking, frames: seq<Telemetry>): Tracking
    decreases |frames|
  {
    if frames == [] then t
    else
      var before, o := Flying(t, frames[..|frames| - 1]), frames[|frames| - 1];
      Finished(before.(jump := Flown(NO_FLIGHTS, before, o).1), o)
  }

  function LastFrame(t: Tracking, frames: seq<Telemetry>): int {
    if frames == [] then t.frame else frames[|frames| - 1].frame
  }

  /** A flight: the ground is left in normal movement and not touched again in these frames. */
  ghost predicate Flight(t: Tracking, frames: seq<Telemetry>) {
    && frames != [] && t.previousValid && t.previousGrounded && frames[0].normalMovement
    && forall i :: 0 <= i < |frames| ==> InAir(frames[i], LastFrame(t, frames[..i]))
  }

  function Held(frames: seq<Telemetry>): nat
    decreases |frames|
  {
    if frames == [] then 0 else Held(frames[..|frames| - 1]) + if frames[|frames| - 1].jumping then 1 else 0
  }

  /** The greatest rise above a starting height, at least zero. */
  function Rise(from: real, frames: seq<Telemetry>): real
    decreases |frames|
  {
    if frames == [] then 0.0
    else Greatest(Rise(from, frames[..|frames| - 1]), from - frames[|frames| - 1].feet)
  }

  /** A flight is measured from the last frame on the ground: where and when it was, the frames the jump was held, and
      the greatest rise. */
  lemma {:induction false} FlightTracked(t: Tracking, frames: seq<Telemetry>)
    requires Flight(t, frames)
    ensures var u := Flying(t, frames);
            && u.previousValid && !u.previousGrounded && u.frame == LastFrame(t, frames) && u.jump.active
            && u.jump.startFrame == t.frame && u.jump.startX == t.previousX && u.jump.startFeet == t.previousFeet
            && u.jump.held == Held(frames) && u.jump.maxHeight == Rise(t.previousFeet, frames)
    decreases |frames|
  {
    var front, o := frames[..|frames| - 1], frames[|frames| - 1];
    assert InAir(frames[|frames| - 1], LastFrame(t, frames[..|frames| - 1]));
    if front != [] {
      assert forall i :: 0 <= i < |front| ==> frames[i] == front[i] && frames[..i] == front[..i];
      FlightTracked(t, front);
    }
  }

  /** Landing ends it: the flight is completed once, and unless it bounced its four measures are the frames since the
      ground was left, the distance, the rise and the frames held, the landing frame included. */
  lemma FlightMeasured(f: Flights, t: Tracking, frames: seq<Telemetry>, o: Telemetry)
    requires Flight(t, frames) && Landing(o, LastFrame(t, frames))
    ensures var (after, jump) := Flown(f, Flying(t, frames), o);
            && !jump.active
            && after == if jump.bounced then f.(completed := f.completed + 1, bounced := f.bounced + 1)
                        else Measured(f, (o.frame - t.frame) as real, o.x - t.previousX,
                                      Rise(t.previousFeet, frames + [o]), Held(frames + [o]))
  {
    FlightTracked(t, frames);
    LandingMeasured(f, Flying(t, frames), o);
    assert (frames + [o])[..|frames|] == frames;
  }

  predicate Landing(o: Telemetry, last: int) {
    0 < o.frame - last <= 4 && o.grounded && !o.episodeDead && !o.sessionDead && !o.episodeClear && !o.sessionClear
  }

  function Measured(f: Flights, duration: real, distance: real, rise: real, held: nat): Flights {
    Flights(AddSample(f.duration, duration), AddSample(f.range, distance), AddSample(f.height, rise),
            AddSample(f.hold, held as real), f.completed + 1, f.bounced)
  }

  lemma LandingMeasured(f: Flights, u: Tracking, o: Telemetry)
    requires u.previousValid && u.jump.active && Landing(o, u.frame)
    ensures var (after, jump) := Flown(f, u, o);
            && !jump.active
            && after == if jump.bounced then f.(completed := f.completed + 1, bounced := f.bounced + 1)
                        else Measured(f, (o.frame - u.jump.startFrame) as real, o.x - u.jump.startX,
                                      Greatest(u.jump.maxHeight, u.jump.startFeet - o.feet),
                                      u.jump.held + if o.jumping then 1 else 0)
  {
  }

  /** A flight bounces when, after a fall of more than a pixel, it rises by more than a pixel in one frame. */
  lemma Bounces(t: Tracking, o: Telemetry)
    requires t.previousValid && t.jump.active && InAir(o, t.frame) && !(t.previousGrounded && o.normalMovement)
    ensures var dy, jump := o.feet - t.previousFeet, Flown(NO_FLIGHTS, t, o).1;
            && (jump.bounced <==> t.jump.bounced || (t.jump.previousDy > 1.0 && dy < -1.0))
            && jump.previousDy == if dy > 1.0 || dy < -1.0 then dy else t.jump.previousDy
  {
  }

  /** A gap of more than four frames abandons the flight, and nothing is measured. */
  lemma FlightLost(f: Flights, t: Tracking, o: Telemetry)
    requires o.frame - t.frame > 4
    ensures Flown(f, t, o).0 == f
    ensures t.previousValid && !o.episodeDead && !o.sessionDead && !o.episodeClear && !o.sessionClear ==>
              !Flown(f, t, o).1.active
  {
  }

  /** Without a flight under way, and without leaving the ground in normal movement, nothing is measured. */
  lemma NoFlight(f: Flights, t: Tracking, o: Telemetry)
    requires !t.jump.active && !(t.previousGrounded && !o.grounded && o.normalMovement)
    ensures Flown(f, t, o) == (f, t.jump)
  {
  }

  /** A death or a clear ends any flight unmeasured. */
  lemma FlightCut(f: Flights, t: Tracking, o: Telemetry)
    requires o.episodeDead || o.sessionDead || o.episodeClear || o.sessionClear
    ensures Flown(f, t, o).0 == f && !Finished(t.(jump := Flown(f, t, o).1), o).jump.active
  {
  }

  /** A whole frame does to enemies, flights and tracking what the parts above say. */
  lemma FrameParts(s: Memory, o: Telemetry, kept: map<Place, Column>)
    requires KnownLevel(o) && !Stale(Identified(s.tracking, o), o) && !Scanned(s, o).threw
    ensures var t, after := Identified(s.tracking, o), Observe(s, o, kept);
            var met := MeetAll(s.enemies, t.sightings, o.hostiles, o.frame);
            && after.columns == kept && after.seenOrder == Scanned(s, o).seenOrder
            && after.enemies == met.enemies && after.tracking.sightings == met.sightings
            && after.flights == Flown(s.flights, t, o).0
            && after.tracking.jump == Finished(t.(jump := Flown(s.flights, t, o).1), o).jump
  {
  }
}
