/** The bookkeeping of the dashboard's adaptive agent as one object: entity tracks and forecasts, reset together
    with the run. Physics learning, planning and control are outside. */
module AdaptiveAgent {
  import opened Lists
  import opened EntityTracks
  import Forecasts
  import Welford

  /** One observation, field extraction already done. smooth stands for the source's conditions on velocity,
      power and displacement that make two frames comparable. */
  datatype Observation = Observation(
    run: int, world: int, stage: int, life: int, frame: int, gameOver: bool, smooth: bool,
    action: string, forecasting: bool, path: seq<Forecasts.Point>, x: real, feet: real, hypot: (real, real) -> real,
    sightings: seq<Sighting>, kills: seq<Sighting>)

  /** Where the agent last was. */
  datatype Position = Position(run: int, world: int, stage: int, life: int, frame: int, hasPrevious: bool)

  const NOWHERE := Position(-1, -1, -1, -1, -1, false)

  /** A new level or life, or a frame number that went back. */
  predicate Boundary(p: Position, o: Observation) {
    p.world != o.world || p.stage != o.stage || p.life != o.life || (p.frame >= 0 && o.frame < p.frame)
  }

  predicate Repeated(p: Position, o: Observation) { !Boundary(p, o) && o.frame == p.frame }

  function FrameOf(p: Position, o: Observation): Forecasts.Frame {
    var contiguous := !Boundary(p, o) && p.hasPrevious && o.frame == p.frame + 1 && o.smooth;
    Forecasts.Frame(o.frame, contiguous, o.action, o.forecasting, o.path, o.x, o.feet, o.hypot)
  }

  /** All that is kept between observations. */
  datatype Books = Books(
    at: Position, entities: Entities, book: seq<Forecasts.Entry>, misses: seq<Forecasts.Miss>)

  const NO_BOOKS := Books(NOWHERE, NOBODY, [], [])

  /** A change of run or the end of the game starts over; a repeated frame changes nothing; anything else updates
      tracks and forecasts. */
  function AfterObservation(b: Books, o: Observation): Books {
    var start := if b.at.run != -1 && b.at.run != o.run then NO_BOOKS else b;
    if o.gameOver then NO_BOOKS.(at := NOWHERE.(run := o.run))
    else if Repeated(start.at, o) then start
    else
      Books(Position(o.run, o.world, o.stage, o.life, o.frame, true),
            AfterFrame(start.entities, Boundary(start.at, o), o.frame, o.sightings, o.kills),
            Forecasts.AfterFrame(start.book, Boundary(start.at, o), FrameOf(start.at, o)),
            start.misses + MissesOf(start.book, Boundary(start.at, o), FrameOf(start.at, o)))
  }

  function MissesOf(book: seq<Forecasts.Entry>, boundary: bool, o: Forecasts.Frame): seq<Forecasts.Miss> {
    Forecasts.Misses(Forecasts.Open(Forecasts.Start(book, boundary, o)), o)
  }

  /** Identities, forecasts and their errors are accounted for. */
  ghost predicate Balanced(b: Books) {
    Accounted(b.entities) && Forecasts.Fair(b.book, b.at.frame) && Forecasts.Tallied(b.book, b.misses)
  }

  function Run(observations: seq<Observation>): Books
    decreases |observations|
  {
    if observations == [] then NO_BOOKS
    else AfterObservation(Run(observations[..|observations| - 1]), observations[|observations| - 1])
  }

  /** Over every run no identity and no forecast is lost or counted twice: identities issued are confirmed,
      archived or live unconfirmed, forecasts issued are pending, scored when due or cancelled, and each horizon's error
      mean has one sample for each of its scored forecasts. */
  lemma {:induction false} RunAccounts(observations: seq<Observation>)
    ensures var b := Run(observations);
            && Balanced(b)
            && b.entities.nextId - 1 == b.entities.confirmed + b.entities.archived + Unconfirmed(b.entities.tracks)
            && |b.book| == |Forecasts.Open(b.book)| + Forecasts.ScoredTotal(b.book) + Forecasts.CancelledCount(b.book)
            && forall h :: Forecasts.MeanOf(b.misses, h).samples == Forecasts.ScoredCount(b.book, h)
    decreases |observations|
  {
    if observations != [] {
      RunAccounts(observations[..|observations| - 1]);
      ObservationAccounts(Run(observations[..|observations| - 1]), observations[|observations| - 1]);
    }
    Forecasts.ForecastsAccount(Run(observations).book);
  }

  lemma ObservationAccounts(b: Books, o: Observation)
    requires Balanced(b)
    ensures Balanced(AfterObservation(b, o))
  {
    var start := if b.at.run != -1 && b.at.run != o.run then NO_BOOKS else b;
    if !o.gameOver && !Repeated(start.at, o) {
      TrackAccounted(start.entities, Boundary(start.at, o), o.frame, o.sightings, o.kills);
      Forecasts.FrameFair(start.book, start.at.frame, Boundary(start.at, o), FrameOf(start.at, o));
      Forecasts.FrameTallied(start.book, start.misses, Boundary(start.at, o), FrameOf(start.at, o));
    }
  }

  // -------------------------------------------------- what one observation means

  /** The end of the game forgets everything but the run. */
  lemma GameOver(b: Books, o: Observation)
    requires o.gameOver
    ensures AfterObservation(b, o) == Books(Position(o.run, -1, -1, -1, -1, false), Entities([], 1, 0, 0), [], [])
  {
  }

  /** A frame of another run is treated as the first one ever seen. */
  lemma NewRun(b: Books, o: Observation)
    requires b.at.run != -1 && b.at.run != o.run
    ensures AfterObservation(b, o)
         == AfterObservation(Books(Position(-1, -1, -1, -1, -1, false), Entities([], 1, 0, 0), [], []), o)
  {
  }

  /** A frame seen before in the same level and life changes nothing. */
  lemma SeenBefore(b: Books, o: Observation)
    requires !o.gameOver && (b.at.run == -1 || b.at.run == o.run)
    requires o.world == b.at.world && o.stage == b.at.stage && o.life == b.at.life && o.frame == b.at.frame
    ensures AfterObservation(b, o) == b
  {
  }

  /** A frame of the run that is not a repetition. */
  ghost predicate Fresh(b: Books, o: Observation) {
    && !o.gameOver && (b.at.run == -1 || b.at.run == o.run)
    && !(o.world == b.at.world && o.stage == b.at.stage && o.life == b.at.life && o.frame == b.at.frame)
  }

  /** Such a frame moves the position, and decides every pending forecast: it is cancelled unless the frame directly
      follows the last one in the same level and life, comparably and under the action forecast, and unless it is
      overdue; otherwise it is scored when due and stays pending before. */
  lemma ForecastFate(b: Books, o: Observation, i: nat)
    requires Fresh(b, o) && i < |b.book| && b.book[i].fate == Forecasts.Pending
    ensures var after, f := AfterObservation(b, o), b.book[i].forecast;
            var follows := && o.world == b.at.world && o.stage == b.at.stage && o.life == b.at.life && b.at.hasPrevious
                           && o.frame == b.at.frame + 1 && o.smooth && f.action == o.action;
            && after.at == Position(o.run, o.world, o.stage, o.life, o.frame, true)
            && i < |after.book| && after.book[i].forecast == f
            && after.book[i].fate ==
                 if !follows || o.frame > f.due then Forecasts.CancelledAt(o.frame)
                 else if o.frame == f.due then Forecasts.ScoredAt(o.frame)
                 else Forecasts.Pending
  {
    Forecasts.DecidedOnce(b.book, Boundary(b.at, o), FrameOf(b.at, o), i);
  }

  /** A scored forecast adds its distance from what the frame observed to the misses. */
  lemma ScoredMiss(b: Books, o: Observation, i: nat)
    requires Fresh(b, o) && i < |b.book| && b.book[i].fate == Forecasts.Pending
    requires AfterObservation(b, o).book[i].fate == Forecasts.ScoredAt(o.frame)
    ensures var f := b.book[i].forecast;
            exists more :: AfterObservation(b, o).misses == b.misses + more
                           && Forecasts.Miss(f.horizon, o.hypot(o.x - f.x, o.feet - f.feet)) in more
  {
    ForecastFate(b, o, i);
    Forecasts.ScoredMissIn(b.book, FrameOf(b.at, o), i);
    assert AfterObservation(b, o).misses == b.misses + MissesOf(b.book, Boundary(b.at, o), FrameOf(b.at, o));
  }

  /** At a new level, a new life or a frame number gone back no earlier track survives. */
  lemma BoundaryForgetsTracks(b: Books, o: Observation)
    requires Fresh(b, o) && Accounted(b.entities)
    requires || o.world != b.at.world || o.stage != b.at.stage || o.life != b.at.life
             || (b.at.frame >= 0 && o.frame < b.at.frame)
    ensures var after := AfterObservation(b, o).entities;
            forall i :: 0 <= i < |after.tracks| ==> after.tracks[i].id >= b.entities.nextId
  {
    BoundaryForgets(b.entities, o.frame, o.sightings, o.kills);
  }

  /** Any other frame keeps the identities of all tracks but those displaced for new ones. */
  lemma TracksContinue(b: Books, o: Observation)
    requires Fresh(b, o) && o.sightings == [] && o.kills == []
    requires o.world == b.at.world && o.stage == b.at.stage && o.life == b.at.life
    requires b.at.frame < 0 || o.frame >= b.at.frame
    ensures var after := AfterObservation(b, o).entities;
            && |after.tracks| == |b.entities.tracks| && after.archived == b.entities.archived
            && forall i :: 0 <= i < |after.tracks| ==> after.tracks[i].id == b.entities.tracks[i].id
  {
  }

  /** operator[] and the report: a horizon without samples has an empty mean. */
  function MeanAt(errors: map<nat, Forecasts.ErrorMean>, horizon: nat): Forecasts.ErrorMean {
    if horizon in errors then errors[horizon] else Forecasts.NO_ERRORS
  }

  ghost predicate MeansAre(errors: map<nat, Forecasts.ErrorMean>, misses: seq<Forecasts.Miss>) {
    forall horizon :: MeanAt(errors, horizon) == Forecasts.MeanOf(misses, horizon)
  }

  class Agent {
    var at: Position
    var tracks: seq<Track>
    var nextId: nat
    var archived: nat
    var confirmed: nat
    var forecasts: seq<Forecasts.Forecast>
    var cancelled: nat
    var errors: map<nat, Forecasts.ErrorMean>
    ghost var book: seq<Forecasts.Entry>
    ghost var misses: seq<Forecasts.Miss>

    ghost function Known(): Entities
      reads this
    {
      Entities(tracks, nextId, archived, confirmed)
    }

    ghost function Model(): Books
      reads this
    {
      Books(at, Known(), book, misses)
    }

    /** The stored forecasts are the open ones of the ledger, the counter counts its cancellations, and the stored
        means are those of the misses. */
    ghost predicate Matched()
      reads this
    {
      && forecasts == Forecasts.Open(book) && cancelled == Forecasts.CancelledCount(book)
      && MeansAre(errors, misses)
    }

    ghost predicate Valid()
      reads this
    {
      Balanced(Model()) && Matched()
    }

    constructor ()
      ensures Valid() && Model() == NO_BOOKS
    {
      at := NOWHERE;
      tracks, nextId, archived, confirmed := [], 1, 0, 0;
      forecasts, cancelled, errors, book, misses := [], 0, map[], [], [];
    }

    method Reset()
      modifies this
      ensures Matched() && Model() == NO_BOOKS
    {
      at := NOWHERE;
      tracks, nextId, archived, confirmed := [], 1, 0, 0;
      forecasts, cancelled, errors, book, misses := [], 0, map[], [], [];
    }

    method Observe(o: Observation) returns (accepted: bool)
      requires Valid()
      modifies this
      ensures Valid() && Model() == AfterObservation(old(Model()), o)
    {
      ObservationAccounts(Model(), o);
      if at.run != -1 && at.run != o.run { Reset(); }
      if o.gameOver {
        Reset();
        at := at.(run := o.run);
        return false;
      }
      if Repeated(at, o) { return false; }
      Update(o);
      accepted := true;
    }

    method Update(o: Observation)
      requires Matched()
      modifies this
      ensures Matched() && at == Position(o.run, o.world, o.stage, o.life, o.frame, true)
      ensures Known() == AfterFrame(old(Known()), Boundary(old(at), o), o.frame, o.sightings, o.kills)
      ensures book == Forecasts.AfterFrame(old(book), Boundary(old(at), o), FrameOf(old(at), o))
      ensures misses == old(misses) + MissesOf(old(book), Boundary(old(at), o), FrameOf(old(at), o))
    {
      var boundary, now := Boundary(at, o), FrameOf(at, o);
      at := Position(o.run, o.world, o.stage, o.life, o.frame, true);
      UpdateForecasts(boundary, now);
      UpdateTracks(boundary, o.frame, o.sightings, o.kills);
    }

    method UpdateForecasts(boundary: bool, o: Forecasts.Frame)
      requires Matched()
      modifies this`forecasts, this`cancelled, this`errors, this`book, this`misses
      ensures Matched() && book == Forecasts.AfterFrame(old(book), boundary, o)
      ensures misses == old(misses) + MissesOf(old(book), boundary, o)
    {
      if boundary {
        Forecasts.CancelOpens(book, o.frame);
        cancelled := cancelled + |forecasts|;
        forecasts := [];
        book := Forecasts.CancelAll(book, o.frame);
      }
      DropDecided(o);
      var made := MakeForecasts(o);
      Forecasts.OpenConcat(book, Forecasts.Issue(made));
      Forecasts.IssueOpens(made);
      forecasts := forecasts + made;
      book := book + Forecasts.Issue(made);
    }

    /** The erase loop: cancelled forecasts are counted, due ones add their error to the mean of their horizon, the
        rest are kept in order. */
    method DropDecided(o: Forecasts.Frame)
      requires Matched()
      modifies this`forecasts, this`cancelled, this`errors, this`book, this`misses
      ensures Matched() && book == Forecasts.DecideAll(old(book), o)
      ensures misses == old(misses) + Forecasts.Misses(Forecasts.Open(old(book)), o)
    {
      Forecasts.DecideOpens(book, o);
      var kept, dropped := Sift(forecasts, o);
      forecasts, cancelled := kept, cancelled + dropped;
      book := Forecasts.DecideAll(book, o);
    }

    method Sift(all: seq<Forecasts.Forecast>, o: Forecasts.Frame)
      returns (kept: seq<Forecasts.Forecast>, dropped: nat)
      requires MeansAre(errors, misses)
      modifies this`errors, this`misses
      ensures kept == Filter(all, Forecasts.IsKept(o)) && dropped == |Filter(all, Forecasts.IsCancelled(o))|
      ensures MeansAre(errors, misses) && misses == old(misses) + Forecasts.Misses(all, o)
    {
      kept, dropped := [], 0;
      ghost var missed: seq<Forecasts.Miss> := [];
      for i := 0 to |all|
        invariant Forecasts.Sifted(all[..i], o, kept, dropped, missed)
        invariant MeansAre(errors, misses) && misses == old(misses) + missed
      {
        Forecasts.SiftedNext(all, i, o, kept, dropped, missed);
        var f := all[i];
        if !o.contiguous || f.action != o.action || o.frame > f.due {
          dropped := dropped + 1;
        } else if o.frame == f.due {
          AddMiss(f.horizon, o.hypot(o.x - f.x, o.feet - f.feet));
        } else {
          kept := kept + [f];
        }
        missed := missed + Forecasts.MissOf(f, o);
      }
      assert all[..|all|] == all;
    }

    method AddMiss(horizon: nat, error: real)
      requires MeansAre(errors, misses)
      modifies this`errors, this`misses
      ensures MeansAre(errors, misses) && misses == old(misses) + [Forecasts.Miss(horizon, error)]
    {
      errors := errors[horizon := Forecasts.AddError(MeanAt(errors, horizon), error)];
      misses := misses + [Forecasts.Miss(horizon, error)];
      assert misses[..|misses| - 1] == old(misses);
    }

    /** The world view of one horizon: its samples are the scored forecasts, and up to 256 of them its mean is
        their average error. */
    method HorizonError(horizon: nat) returns (m: Forecasts.ErrorMean)
      requires Valid()
      ensures m.samples == Forecasts.ScoredCount(book, horizon)
      ensures m.samples <= 256 ==> m.mean == Welford.Mean(Forecasts.ErrorsOf(misses, horizon))
    {
      Forecasts.MeanIsAverage(misses, horizon);
      m := MeanAt(errors, horizon);
    }

    method MakeForecasts(o: Forecasts.Frame) returns (made: seq<Forecasts.Forecast>)
      ensures made == Forecasts.MadeIn(o)
    {
      made := [];
      if o.forecasting && o.frame % 4 == 0 {
        var steps := if |o.path| < 32 then |o.path| else 32;
        for h := 0 to steps
          invariant made == Forecasts.Made(o, h)
        {
          var n := h + 1;
          if n in Forecasts.HORIZONS {
            made := made + [Forecasts.Forecast(o.frame + n, n, o.path[h].x, o.path[h].feet, o.action)];
          }
        }
      }
    }

    method UpdateTracks(boundary: bool, now: int, sightings: seq<Sighting>, kills: seq<Sighting>)
      modifies this`tracks, this`nextId, this`archived, this`confirmed
      ensures Known() == AfterFrame(old(Known()), boundary, now, sightings, kills)
    {
      if boundary {
        var lost := CountUnconfirmed(tracks);
        archived := archived + lost;
        tracks := [];
      }
      tracks := Hidden(tracks);
      SeeEvery(sightings, now);
      ConfirmEvery(kills, now);
    }

    method SeeEvery(sightings: seq<Sighting>, now: int)
      modifies this`tracks, this`nextId, this`archived
      ensures Known() == SeeAll(old(Known()), sightings, now)
    {
      for i := 0 to |sightings|
        invariant Known() == SeeAll(old(Known()), sightings[..i], now)
      {
        assert sightings[..i + 1][..i] == sightings[..i];
        SeeOne(sightings[i], now);
      }
      assert sightings[..|sightings|] == sightings;
    }

    method ConfirmEvery(kills: seq<Sighting>, now: int)
      modifies this`tracks, this`confirmed
      ensures Known() == ConfirmAll(old(Known()), kills, now)
    {
      for i := 0 to |kills|
        invariant Known() == ConfirmAll(old(Known()), kills[..i], now)
      {
        assert kills[..i + 1][..i] == kills[..i];
        ConfirmOne(kills[i], now);
      }
      assert kills[..|kills|] == kills;
    }

    static method CountUnconfirmed(tracks: seq<Track>) returns (n: nat)
      ensures n == Unconfirmed(tracks)
    {
      n := 0;
      for i := 0 to |tracks|
        invariant n == Unconfirmed(tracks[..i])
      {
        assert tracks[..i + 1][..i] == tracks[..i];
        if !tracks[i].status.Eliminated? { n := n + 1; }
      }
      assert tracks[..|tracks|] == tracks;
    }

    method SeeOne(s: Sighting, now: int)
      modifies this`tracks, this`nextId, this`archived
      ensures Known() == See(old(Known()), s, now)
    {
      var i := FirstMatch(tracks, s, now);
      if i < |tracks| {
        tracks := tracks[i := Refresh(tracks[i], s, now)];
      } else {
        if |tracks| >= MAX_TRACKS {
          var oldest := Oldest(tracks);
          if !tracks[oldest].status.Eliminated? { archived := archived + 1; }
          tracks := tracks[..oldest] + tracks[oldest + 1..];
        }
        tracks := tracks + [Refresh(Track(nextId, -1, -1, 0, 0.0, false, Observed), s, now)];
        nextId := nextId + 1;
      }
    }

    method ConfirmOne(k: Sighting, now: int)
      modifies this`tracks, this`confirmed
      ensures Known() == Confirm(old(Known()), k, now)
    {
      var credited: seq<Track> := [];
      var n := 0;
      for i := 0 to |tracks|
        invariant tracks == old(tracks) && confirmed == old(confirmed)
        invariant credited == CreditEach(tracks, k, now)[..i] && n == Credits(tracks[..i], k, now)
      {
        assert tracks[..i + 1][..i] == tracks[..i];
        if Attributed(tracks[i], k, now) { n := n + 1; }
        credited := credited + [Credit(tracks[i], k, now)];
      }
      assert tracks[..|tracks|] == tracks;
      tracks, confirmed := credited, confirmed + n;
    }

    /** The world view: everything issued and not confirmed is reported unresolved. */
    method Unresolved() returns (unresolved: nat)
      requires Valid()
      ensures unresolved + confirmed == nextId - 1
    {
      var n := CountUnconfirmed(tracks);
      unresolved := archived + n;
    }
  }
}
