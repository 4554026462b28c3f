/** Entity identities of the dashboard's adaptive agent: sightings are matched to tracks, tracks are archived
    or confirmed eliminated, and no identity is ever lost from the accounts. */
module EntityTracks {
  import opened Welford

  const MAX_TRACKS := 128

  datatype Status = Observed | Unobserved | Eliminated

  datatype Track = Track(id: nat, slot: int, kind: int, seen: int, x: real, visible: bool, status: Status)

  datatype Sighting = Sighting(slot: int, kind: int, x: real)

  /** Tracks are in the order of their ids. */
  datatype Entities = Entities(tracks: seq<Track>, nextId: nat, archived: nat, confirmed: nat)

  const NOBODY := Entities([], 1, 0, 0)

  function Unconfirmed(tracks: seq<Track>): nat
    decreases |tracks|
  {
    if tracks == [] then 0
    else Unconfirmed(tracks[..|tracks| - 1]) + if tracks[|tracks| - 1].status.Eliminated? then 0 else 1
  }

  /** At a boundary everything not confirmed is archived as unresolved. */
  function Forgotten(e: Entities): Entities {
    e.(tracks := [], archived := e.archived + Unconfirmed(e.tracks))
  }

  function Hide(t: Track): Track {
    t.(visible := false, status := if t.status.Eliminated? then Eliminated else Unobserved)
  }

  function Hidden(tracks: seq<Track>): (r: seq<Track>)
    ensures |r| == |tracks| && forall i :: 0 <= i < |r| ==> r[i] == Hide(tracks[i])
  {
    seq(|tracks|, i requires 0 <= i < |tracks| => Hide(tracks[i]))
  }

  function Reach(age: int): real {
    var r := 16.0 + 4.0 * age as real;
    if r < 96.0 then r else 96.0
  }

  predicate Matches(t: Track, s: Sighting, frame: int) {
    && t.slot == s.slot && t.kind == s.kind && !t.status.Eliminated?
    && frame - t.seen <= 90 && Abs(s.x - t.x) <= Reach(frame - t.seen)
  }

  /** The first matching track from a position on. */
  function FirstMatch(tracks: seq<Track>, s: Sighting, frame: int, from: nat := 0): (i: nat)
    requires from <= |tracks|
    ensures from <= i <= |tracks| && (i < |tracks| ==> Matches(tracks[i], s, frame))
    ensures forall j :: from <= j < i ==> !Matches(tracks[j], s, frame)
    decreases |tracks| - from
  {
    if from == |tracks| || Matches(tracks[from], s, frame) then from else FirstMatch(tracks, s, frame, from + 1)
  }

  function Refresh(t: Track, s: Sighting, frame: int): Track {
    Track(t.id, s.slot, s.kind, frame, s.x, true, Observed)
  }

  /** The first of the tracks seen least recently. */
  function Oldest(tracks: seq<Track>): (i: nat)
    requires tracks != []
    ensures i < |tracks| && forall j :: 0 <= j < |tracks| ==> tracks[i].seen <= tracks[j].seen
    ensures forall j :: 0 <= j < i ==> tracks[i].seen < tracks[j].seen
    decreases |tracks|
  {
    if |tracks| == 1 then 0
    else
      var n := |tracks| - 1;
      var i := Oldest(tracks[..n]);
      if tracks[n].seen < tracks[..n][i].seen then n else i
  }

  function Evicted(e: Entities): Entities
    requires e.tracks != []
  {
    var i := Oldest(e.tracks);
    e.(tracks := e.tracks[..i] + e.tracks[i + 1..],
       archived := e.archived + if e.tracks[i].status.Eliminated? then 0 else 1)
  }

  function Discovered(e: Entities, s: Sighting, frame: int): Entities {
    var room := if |e.tracks| >= MAX_TRACKS then Evicted(e) else e;
    room.(tracks := room.tracks + [Refresh(Track(e.nextId, -1, -1, 0, 0.0, false, Observed), s, frame)],
          nextId := e.nextId + 1)
  }

  function See(e: Entities, s: Sighting, frame: int): Entities {
    var i := FirstMatch(e.tracks, s, frame);
    if i < |e.tracks| then e.(tracks := e.tracks[i := Refresh(e.tracks[i], s, frame)]) else Discovered(e, s, frame)
  }

  function SeeAll(e: Entities, sightings: seq<Sighting>, frame: int): Entities
    decreases |sightings|
  {
    if sightings == [] then e
    else See(SeeAll(e, sightings[..|sightings| - 1], frame), sightings[|sightings| - 1], frame)
  }

  /** Identity-specific evidence of an elimination. */
  predicate Attributed(t: Track, k: Sighting, frame: int) {
    && t.slot == k.slot && t.kind == k.kind && Abs(t.x - k.x) < 32.0 && frame - t.seen <= 8 && !t.status.Eliminated?
  }

  function Credit(t: Track, k: Sighting, frame: int): Track {
    if Attributed(t, k, frame) then t.(status := Eliminated, visible := false) else t
  }

  function CreditEach(tracks: seq<Track>, k: Sighting, frame: int): (r: seq<Track>)
    ensures |r| == |tracks| && forall i :: 0 <= i < |r| ==> r[i] == Credit(tracks[i], k, frame)
  {
    seq(|tracks|, i requires 0 <= i < |tracks| => Credit(tracks[i], k, frame))
  }

  function Credits(tracks: seq<Track>, k: Sighting, frame: int): nat
    decreases |tracks|
  {
    if tracks == [] then 0
    else Credits(tracks[..|tracks| - 1], k, frame) + if Attributed(tracks[|tracks| - 1], k, frame) then 1 else 0
  }

  function Confirm(e: Entities, k: Sighting, frame: int): Entities {
    e.(tracks := CreditEach(e.tracks, k, frame), confirmed := e.confirmed + Credits(e.tracks, k, frame))
  }

  function ConfirmAll(e: Entities, kills: seq<Sighting>, frame: int): Entities
    decreases |kills|
  {
    if kills == [] then e
    else Confirm(ConfirmAll(e, kills[..|kills| - 1], frame), kills[|kills| - 1], frame)
  }

  /** The tracking part of one accepted observation. */
  function AfterFrame(e: Entities, boundary: bool, frame: int, sightings: seq<Sighting>,
    kills: seq<Sighting>): Entities {
    var start := if boundary then Forgotten(e) else e;
    ConfirmAll(SeeAll(start.(tracks := Hidden(start.tracks)), sightings, frame), kills, frame)
  }

  // -------------------------------------------------------------------- the accounts

  /** Every identity issued is confirmed, archived, or a live unconfirmed track. */
  ghost predicate Accounted(e: Entities) {
    && e.nextId == 1 + e.confirmed + e.archived + Unconfirmed(e.tracks)
    && |e.tracks| <= MAX_TRACKS
    && (forall i :: 0 <= i < |e.tracks| ==> 1 <= e.tracks[i].id < e.nextId)
    && (forall i, j :: 0 <= i < j < |e.tracks| ==> e.tracks[i].id < e.tracks[j].id)
  }

  lemma {:induction false} UnconfirmedConcat(a: seq<Track>, b: seq<Track>)
    ensures Unconfirmed(a + b) == Unconfirmed(a) + Unconfirmed(b)
    decreases |b|
  {
    if b == [] {
      assert a + b == a;
    } else {
      assert (a + b)[..|a + b| - 1] == a + b[..|b| - 1];
      UnconfirmedConcat(a, b[..|b| - 1]);
    }
  }

  /** Only which tracks are eliminated matters to the count. */
  lemma {:induction false} UnconfirmedSame(a: seq<Track>, b: seq<Track>)
    requires |a| == |b| && forall i :: 0 <= i < |a| ==> (a[i].status.Eliminated? <==> b[i].status.Eliminated?)
    ensures Unconfirmed(a) == Unconfirmed(b)
    decreases |a|
  {
    if a != [] { UnconfirmedSame(a[..|a| - 1], b[..|b| - 1]); }
  }

  lemma {:induction false} CreditsAccount(tracks: seq<Track>, k: Sighting, frame: int)
    ensures Unconfirmed(CreditEach(tracks, k, frame)) + Credits(tracks, k, frame) == Unconfirmed(tracks)
    decreases |tracks|
  {
    if tracks != [] {
      var n := |tracks| - 1;
      CreditsAccount(tracks[..n], k, frame);
      assert CreditEach(tracks, k, frame)[..n] == CreditEach(tracks[..n], k, frame);
    }
  }

  lemma OneOut(tracks: seq<Track>, i: nat)
    requires i < |tracks|
    ensures Unconfirmed(tracks)
         == Unconfirmed(tracks[..i] + tracks[i + 1..]) + if tracks[i].status.Eliminated? then 0 else 1
  {
    UnconfirmedConcat(tracks[..i + 1], tracks[i + 1..]);
    assert tracks == tracks[..i + 1] + tracks[i + 1..];
    UnconfirmedConcat(tracks[..i], tracks[i + 1..]);
    assert tracks[..i + 1][..i] == tracks[..i];
  }

  lemma EvictedAccounted(e: Entities)
    requires Accounted(e) && e.tracks != []
    ensures Accounted(Evicted(e)) && |Evicted(e).tracks| == |e.tracks| - 1
  {
    OneOut(e.tracks, Oldest(e.tracks));
  }

  lemma AppendedAccounted(e: Entities, t: Track)
    requires Accounted(e) && |e.tracks| < MAX_TRACKS && t.id == e.nextId && !t.status.Eliminated?
    ensures Accounted(e.(tracks := e.tracks + [t], nextId := e.nextId + 1))
  {
  }

  lemma RefreshedAccounted(e: Entities, i: nat, s: Sighting, frame: int)
    requires Accounted(e) && i < |e.tracks| && !e.tracks[i].status.Eliminated?
    ensures Accounted(e.(tracks := e.tracks[i := Refresh(e.tracks[i], s, frame)]))
  {
    UnconfirmedSame(e.tracks, e.tracks[i := Refresh(e.tracks[i], s, frame)]);
  }

  lemma SeeAccounted(e: Entities, s: Sighting, frame: int)
    requires Accounted(e)
    ensures Accounted(See(e, s, frame))
  {
    var i := FirstMatch(e.tracks, s, frame);
    if i < |e.tracks| {
      RefreshedAccounted(e, i, s, frame);
    } else {
      if |e.tracks| >= MAX_TRACKS { EvictedAccounted(e); }
      var room := if |e.tracks| >= MAX_TRACKS then Evicted(e) else e;
      AppendedAccounted(room, Refresh(Track(e.nextId, -1, -1, 0, 0.0, false, Observed), s, frame));
    }
  }

  lemma {:induction false} SeeAllAccounted(e: Entities, sightings: seq<Sighting>, frame: int)
    requires Accounted(e)
    ensures Accounted(SeeAll(e, sightings, frame)) && SeeAll(e, sightings, frame).confirmed == e.confirmed
    decreases |sightings|
  {
    if sightings != [] {
      SeeAllAccounted(e, sightings[..|sightings| - 1], frame);
      SeeAccounted(SeeAll(e, sightings[..|sightings| - 1], frame), sightings[|sightings| - 1], frame);
    }
  }

  lemma {:induction false} ConfirmAllAccounted(e: Entities, kills: seq<Sighting>, frame: int)
    requires Accounted(e)
    ensures Accounted(ConfirmAll(e, kills, frame))
    decreases |kills|
  {
    if kills != [] {
      var before := ConfirmAll(e, kills[..|kills| - 1], frame);
      ConfirmAllAccounted(e, kills[..|kills| - 1], frame);
      CreditsAccount(before.tracks, kills[|kills| - 1], frame);
    }
  }

  /** Every observation keeps the accounts: identities issued = confirmed + archived + live unconfirmed, at most
      128 tracks, ids distinct. */
  lemma TrackAccounted(e: Entities, boundary: bool, frame: int, sightings: seq<Sighting>, kills: seq<Sighting>)
    requires Accounted(e)
    ensures Accounted(AfterFrame(e, boundary, frame, sightings, kills))
  {
    var start := if boundary then Forgotten(e) else e;
    UnconfirmedSame(start.tracks, Hidden(start.tracks));
    SeeAllAccounted(start.(tracks := Hidden(start.tracks)), sightings, frame);
    ConfirmAllAccounted(SeeAll(start.(tracks := Hidden(start.tracks)), sightings, frame), kills, frame);
  }

  // ---------------------------------------------------- disappearance is not a kill

  ghost predicate EliminatedId(e: Entities, id: nat) {
    exists i :: 0 <= i < |e.tracks| && e.tracks[i].id == id && e.tracks[i].status.Eliminated?
  }

  lemma SeeEliminates(e: Entities, s: Sighting, frame: int, id: nat)
    ensures EliminatedId(See(e, s, frame), id) ==> EliminatedId(e, id)
  {
  }

  lemma {:induction false} SeeAllEliminates(e: Entities, sightings: seq<Sighting>, frame: int, id: nat)
    ensures EliminatedId(SeeAll(e, sightings, frame), id) ==> EliminatedId(e, id)
    decreases |sightings|
  {
    if sightings != [] {
      SeeAllEliminates(e, sightings[..|sightings| - 1], frame, id);
      SeeEliminates(SeeAll(e, sightings[..|sightings| - 1], frame), sightings[|sightings| - 1], frame, id);
    }
  }

  /** Without an elimination event nothing becomes eliminated, whatever disappears from view. */
  lemma NoKillWithoutEvidence(e: Entities, boundary: bool, frame: int, sightings: seq<Sighting>, id: nat)
    requires Accounted(e)
    ensures var after := AfterFrame(e, boundary, frame, sightings, []);
            after.confirmed == e.confirmed && (EliminatedId(after, id) ==> EliminatedId(e, id))
  {
    var start := if boundary then Forgotten(e) else e;
    var hidden := start.(tracks := Hidden(start.tracks));
    UnconfirmedSame(start.tracks, hidden.tracks);
    SeeAllAccounted(hidden, sightings, frame);
    SeeAllEliminates(hidden, sightings, frame, id);
    if EliminatedId(hidden, id) {
      var i :| 0 <= i < |hidden.tracks| && hidden.tracks[i].id == id && hidden.tracks[i].status.Eliminated?;
      assert e.tracks[i].id == id && e.tracks[i].status.Eliminated?;
    }
  }

  // ------------------------------------------------------- what one observation means

  /** The track may be the entity sighted: same slot and kind, not confirmed eliminated, seen within 90 frames, and no
      farther than sixteen pixels and four for each frame since, at most 96. */
  ghost predicate MayBe(t: Track, s: Sighting, frame: int) {
    && t.slot == s.slot && t.kind == s.kind && t.status != Eliminated && frame - t.seen <= 90
    && -96.0 <= s.x - t.x <= 96.0
    && -(16.0 + 4.0 * (frame - t.seen) as real) <= s.x - t.x <= 16.0 + 4.0 * (frame - t.seen) as real
  }

  /** A sighting refreshes the first track it may be, under its identity, and changes nothing else. */
  lemma SeenAgain(e: Entities, s: Sighting, frame: int, i: nat)
    requires i < |e.tracks| && MayBe(e.tracks[i], s, frame) && forall j :: 0 <= j < i ==> !MayBe(e.tracks[j], s, frame)
    ensures See(e, s, frame)
         == e.(tracks := e.tracks[i := Track(e.tracks[i].id, s.slot, s.kind, frame, s.x, true, Observed)])
  {
  }

  /** A sighting that may be no track is a new entity with the next identity. With 128 tracks it displaces the first of
      those seen least recently. */
  lemma SeenFirst(e: Entities, s: Sighting, frame: int) returns (kept: seq<Track>)
    requires forall i :: 0 <= i < |e.tracks| ==> !MayBe(e.tracks[i], s, frame)
    ensures See(e, s, frame).tracks == kept + [Track(e.nextId, s.slot, s.kind, frame, s.x, true, Observed)]
    ensures See(e, s, frame).nextId == e.nextId + 1
    ensures |e.tracks| < 128 ==> kept == e.tracks
    ensures |e.tracks| >= 128 ==>
              exists i :: 0 <= i < |e.tracks| && kept == e.tracks[..i] + e.tracks[i + 1..]
                && (forall j :: 0 <= j < |e.tracks| ==> e.tracks[i].seen <= e.tracks[j].seen)
                && (forall j :: 0 <= j < i ==> e.tracks[i].seen < e.tracks[j].seen)
  {
    kept := See(e, s, frame).tracks[..|See(e, s, frame).tracks| - 1];
    assert FirstMatch(e.tracks, s, frame) == |e.tracks|;
    if |e.tracks| >= 128 {
      var i := Oldest(e.tracks);
      assert kept == e.tracks[..i] + e.tracks[i + 1..];
    }
  }

  /** An elimination event confirms exactly the tracks of its slot and kind, closer than 32 pixels and seen within eight
      frames, that were not confirmed before. */
  lemma ConfirmedAre(e: Entities, k: Sighting, frame: int, i: nat)
    requires i < |e.tracks|
    ensures |Confirm(e, k, frame).tracks| == |e.tracks|
    ensures var t := e.tracks[i];
            Confirm(e, k, frame).tracks[i] ==
              if t.slot == k.slot && t.kind == k.kind && -32.0 < t.x - k.x < 32.0 && frame - t.seen <= 8
                 && t.status != Eliminated
              then t.(status := Eliminated, visible := false) else t
  {
  }

  /** A frame without sightings and events leaves every track out of view, and only the eliminated ones decided. */
  lemma OutOfView(e: Entities, frame: int, i: nat)
    requires i < |e.tracks|
    ensures var after := AfterFrame(e, false, frame, [], []);
            && |after.tracks| == |e.tracks|
            && after.tracks[i] == e.tracks[i].(visible := false,
                 status := if e.tracks[i].status == Eliminated then Eliminated else Unobserved)
  {
  }

  /** At a boundary no earlier track survives. */
  lemma BoundaryForgets(e: Entities, frame: int, sightings: seq<Sighting>, kills: seq<Sighting>)
    requires Accounted(e)
    ensures forall i :: 0 <= i < |AfterFrame(e, true, frame, sightings, kills).tracks| ==>
              AfterFrame(e, true, frame, sightings, kills).tracks[i].id >= e.nextId
  {
    var start := Forgotten(e).(tracks := Hidden([]));
    NewerOnly(start, sightings, frame, e.nextId);
    NewerConfirmed(SeeAll(start, sightings, frame), kills, frame, e.nextId);
  }

  ghost predicate Newer(e: Entities, id: nat) {
    e.nextId >= id && forall i :: 0 <= i < |e.tracks| ==> e.tracks[i].id >= id
  }

  lemma {:induction false} NewerOnly(e: Entities, sightings: seq<Sighting>, frame: int, id: nat)
    requires Newer(e, id)
    ensures Newer(SeeAll(e, sightings, frame), id)
    decreases |sightings|
  {
    if sightings != [] {
      NewerOnly(e, sightings[..|sightings| - 1], frame, id);
    }
  }

  lemma {:induction false} NewerConfirmed(e: Entities, kills: seq<Sighting>, frame: int, id: nat)
    requires Newer(e, id)
    ensures Newer(ConfirmAll(e, kills, frame), id)
    decreases |kills|
  {
    if kills != [] { NewerConfirmed(e, kills[..|kills| - 1], frame, id); }
  }
}
