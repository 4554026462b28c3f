/** Forecast scoring of the dashboard's adaptive agent: forecasts are frozen when made and scored only in their
    due frame, under the condition they were made for. */
module Forecasts {
  import opened Lists
  import Welford

  /** What was predicted for a frame, if the action is held until then. */
  datatype Forecast = Forecast(due: int, horizon: nat, x: real, feet: real, action: string)

  /** One point of the simulated path; the path ends where the world is unknown. */
  datatype Point = Point(x: real, feet: real)

  const HORIZONS := {1, 4, 8, 16, 32}

  /** One observed frame; hypot is the library's Euclidean distance, of which nothing is assumed. */
  datatype Frame = Frame(
    frame: int, contiguous: bool, action: string, forecasting: bool, path: seq<Point>,
    x: real, feet: real, hypot: (real, real) -> real)

  predicate Cancelled(f: Forecast, o: Frame) {
    !o.contiguous || f.action != o.action || o.frame > f.due
  }

  predicate Scored(f: Forecast, o: Frame) { !Cancelled(f, o) && o.frame == f.due }

  predicate Kept(f: Forecast, o: Frame) { !Cancelled(f, o) && o.frame != f.due }

  function IsKept(o: Frame): Forecast -> bool { (f: Forecast) => Kept(f, o) }

  function IsCancelled(o: Frame): Forecast -> bool { (f: Forecast) => Cancelled(f, o) }

  /** Forecasts made in a frame, for each horizon the path reaches. */
  function Made(o: Frame, steps: nat): (r: seq<Forecast>)
    requires steps <= |o.path|
    ensures forall i :: 0 <= i < |r| ==>
        r[i].due == o.frame + r[i].horizon && r[i].horizon in HORIZONS && r[i].action == o.action
    decreases steps
  {
    if steps == 0 then []
    else
      Made(o, steps - 1) +
      if steps in HORIZONS
      then [Forecast(o.frame + steps, steps, o.path[steps - 1].x, o.path[steps - 1].feet, o.action)] else []
  }

  function MadeIn(o: Frame): seq<Forecast> {
    if o.forecasting && o.frame % 4 == 0 then Made(o, if |o.path| < 32 then |o.path| else 32) else []
  }

  // ------------------------------------------------------------------- the ledger

  datatype Fate = Pending | ScoredAt(frame: int) | CancelledAt(frame: int)

  /** Every forecast issued since the last reset, with its fate. */
  datatype Entry = Entry(forecast: Forecast, fate: Fate)

  function Decided(e: Entry, o: Frame): Entry {
    if !e.fate.Pending? then e
    else if Cancelled(e.forecast, o) then e.(fate := CancelledAt(o.frame))
    else if o.frame == e.forecast.due then e.(fate := ScoredAt(o.frame))
    else e
  }

  function DecideAll(book: seq<Entry>, o: Frame): (r: seq<Entry>)
    ensures |r| == |book| && forall i :: 0 <= i < |r| ==> r[i] == Decided(book[i], o)
  {
    seq(|book|, i requires 0 <= i < |book| => Decided(book[i], o))
  }

  function Issue(made: seq<Forecast>): (r: seq<Entry>)
    ensures |r| == |made| && forall i :: 0 <= i < |r| ==> r[i] == Entry(made[i], Pending)
  {
    seq(|made|, i requires 0 <= i < |made| => Entry(made[i], Pending))
  }

  /** At a boundary everything pending is cancelled. */
  function CancelAll(book: seq<Entry>, frame: int): (r: seq<Entry>)
    ensures |r| == |book|
    ensures forall i :: 0 <= i < |r| ==> r[i] == CancelOne(book[i], frame)
  {
    seq(|book|, i requires 0 <= i < |book| => CancelOne(book[i], frame))
  }

  function CancelOne(e: Entry, frame: int): Entry {
    if e.fate.Pending? then e.(fate := CancelledAt(frame)) else e
  }

  /** What a frame starts from: a boundary has cancelled everything pending. */
  function Start(book: seq<Entry>, boundary: bool, o: Frame): seq<Entry> {
    if boundary then CancelAll(book, o.frame) else book
  }

  function AfterFrame(book: seq<Entry>, boundary: bool, o: Frame): seq<Entry> {
    DecideAll(Start(book, boundary, o), o) + Issue(MadeIn(o))
  }

  /** The pending forecasts in the order they were made: what the agent stores. */
  function Open(book: seq<Entry>): seq<Forecast>
    decreases |book|
  {
    if book == [] then []
    else Open(book[..|book| - 1]) + if book[|book| - 1].fate.Pending? then [book[|book| - 1].forecast] else []
  }

  function CancelledCount(book: seq<Entry>): nat
    decreases |book|
  {
    if book == [] then 0 else CancelledCount(book[..|book| - 1]) + if book[|book| - 1].fate.CancelledAt? then 1 else 0
  }

  /** How many forecasts of a horizon have been scored. */
  function ScoredCount(book: seq<Entry>, horizon: nat): nat
    decreases |book|
  {
    if book == [] then 0
    else
      var last := book[|book| - 1];
      ScoredCount(book[..|book| - 1], horizon)
      + if last.fate.ScoredAt? && last.forecast.horizon == horizon then 1 else 0
  }

  // -------------------------------------------------------------- forecast errors

  /** The distance of a forecast from what its due frame observed. */
  datatype Miss = Miss(horizon: nat, error: real)

  /** The forecasts scored in a frame, in the order they were made. */
  function Misses(open: seq<Forecast>, o: Frame): seq<Miss>
    decreases |open|
  {
    if open == [] then []
    else
      Misses(open[..|open| - 1], o) + MissOf(open[|open| - 1], o)
  }

  function MissOf(f: Forecast, o: Frame): seq<Miss> {
    if Scored(f, o) then [Miss(f.horizon, o.hypot(o.x - f.x, o.feet - f.feet))] else []
  }

  /** One more stored forecast is either kept, counted as cancelled, or scored. */
  lemma SiftNext(open: seq<Forecast>, i: nat, o: Frame)
    requires i < |open|
    ensures Filter(open[..i + 1], IsKept(o))
         == Filter(open[..i], IsKept(o)) + if Kept(open[i], o) then [open[i]] else []
    ensures |Filter(open[..i + 1], IsCancelled(o))|
         == |Filter(open[..i], IsCancelled(o))| + if Cancelled(open[i], o) then 1 else 0
    ensures Misses(open[..i + 1], o) == Misses(open[..i], o) + MissOf(open[i], o)
  {
    FilterNext(open, i, IsKept(o));
    FilterNext(open, i, IsCancelled(o));
    assert open[..i + 1][..i] == open[..i];
  }

  /** What the erase loop has done with a list of stored forecasts. */
  ghost predicate Sifted(open: seq<Forecast>, o: Frame, kept: seq<Forecast>, dropped: nat, misses: seq<Miss>) {
    && kept == Filter(open, IsKept(o)) && dropped == |Filter(open, IsCancelled(o))| && misses == Misses(open, o)
  }

  lemma SiftedNext(open: seq<Forecast>, i: nat, o: Frame, kept: seq<Forecast>, dropped: nat, misses: seq<Miss>)
    requires i < |open| && Sifted(open[..i], o, kept, dropped, misses)
    ensures Sifted(open[..i + 1], o, kept + if Kept(open[i], o) then [open[i]] else [],
                   dropped + if Cancelled(open[i], o) then 1 else 0, misses + MissOf(open[i], o))
  {
    SiftNext(open, i, o);
  }

  datatype ErrorMean = ErrorMean(samples: nat, mean: real)

  const NO_ERRORS := ErrorMean(0, 0.0)

  /** Mean::add: the weight of a new sample never falls below 1/256. */
  function AddError(m: ErrorMean, error: real): ErrorMean {
    var n := m.samples + 1;
    ErrorMean(n, m.mean + (error - m.mean) / (if n < 256 then n else 256) as real)
  }

  /** The error mean of one horizon after a log of misses. */
  function MeanOf(misses: seq<Miss>, horizon: nat): ErrorMean
    decreases |misses|
  {
    if misses == [] then NO_ERRORS
    else
      var before, last := MeanOf(misses[..|misses| - 1], horizon), misses[|misses| - 1];
      if last.horizon == horizon then AddError(before, last.error) else before
  }

  function ErrorsOf(misses: seq<Miss>, horizon: nat): seq<real>
    decreases |misses|
  {
    if misses == [] then []
    else
      var last := misses[|misses| - 1];
      ErrorsOf(misses[..|misses| - 1], horizon) + if last.horizon == horizon then [last.error] else []
  }

  /** The samples of an error mean are the misses of its horizon; up to 256 of them it is their plain average. */
  lemma {:induction false} MeanIsAverage(misses: seq<Miss>, horizon: nat)
    ensures MeanOf(misses, horizon).samples == |ErrorsOf(misses, horizon)|
    ensures |ErrorsOf(misses, horizon)| <= 256 ==>
              MeanOf(misses, horizon).mean == Welford.Mean(ErrorsOf(misses, horizon))
    decreases |misses|
  {
    if misses != [] {
      var front, last := misses[..|misses| - 1], misses[|misses| - 1];
      MeanIsAverage(front, horizon);
      assert ErrorsOf(front, horizon) + [] == ErrorsOf(front, horizon);
      if last.horizon == horizon && |ErrorsOf(misses, horizon)| <= 256 {
        Welford.MeanStep(ErrorsOf(front, horizon), MeanOf(front, horizon).mean, last.error);
      }
    }
  }

  lemma {:induction false} SamplesConcat(a: seq<Miss>, b: seq<Miss>, horizon: nat)
    ensures MeanOf(a + b, horizon).samples == MeanOf(a, horizon).samples + MeanOf(b, horizon).samples
    decreases |b|
  {
    if b == [] {
      assert a + b == a;
    } else {
      assert (a + b)[..|a + b| - 1] == a + b[..|b| - 1];
      SamplesConcat(a, b[..|b| - 1], horizon);
    }
  }

  /** Every scored forecast of the ledger is a sample of its horizon's error mean, and nothing else is. */
  ghost predicate Tallied(book: seq<Entry>, misses: seq<Miss>) {
    forall horizon :: MeanOf(misses, horizon).samples == ScoredCount(book, horizon)
  }

  lemma {:induction false} DecideScores(book: seq<Entry>, o: Frame, horizon: nat)
    ensures ScoredCount(DecideAll(book, o), horizon)
         == ScoredCount(book, horizon) + MeanOf(Misses(Open(book), o), horizon).samples
    decreases |book|
  {
    if book != [] {
      var n := |book| - 1;
      var front, last := Open(book[..n]), book[n];
      DecideScores(book[..n], o, horizon);
      assert DecideAll(book, o)[..n] == DecideAll(book[..n], o);
      if last.fate.Pending? {
        assert Open(book)[..|front|] == front && Misses(Open(book), o) == Misses(front, o) + MissOf(last.forecast, o);
        SamplesConcat(Misses(front, o), MissOf(last.forecast, o), horizon);
        OneSample(last.forecast, o, horizon);
      } else {
        assert Open(book) == front;
      }
    }
  }

  lemma OneSample(f: Forecast, o: Frame, horizon: nat)
    ensures MeanOf(MissOf(f, o), horizon).samples == if Scored(f, o) && f.horizon == horizon then 1 else 0
  {
    if Scored(f, o) { assert MissOf(f, o)[..0] == []; }
  }

  lemma {:induction false} UnscoredTail(book: seq<Entry>, made: seq<Forecast>, horizon: nat)
    ensures ScoredCount(book + Issue(made), horizon) == ScoredCount(book, horizon)
    decreases |made|
  {
    if made == [] {
      assert book + Issue(made) == book;
    } else {
      var front := made[..|made| - 1];
      assert (book + Issue(made))[..|book| + |front|] == book + Issue(front);
      UnscoredTail(book, front, horizon);
    }
  }

  lemma {:induction false} CancelScoresNothing(book: seq<Entry>, frame: int, horizon: nat)
    ensures ScoredCount(CancelAll(book, frame), horizon) == ScoredCount(book, horizon)
    decreases |book|
  {
    if book != [] {
      var n := |book| - 1;
      CancelScoresNothing(book[..n], frame, horizon);
      assert CancelAll(book, frame)[..n] == CancelAll(book[..n], frame);
    }
  }

  /** A frame adds one sample for each forecast it scores. */
  lemma FrameTallied(book: seq<Entry>, misses: seq<Miss>, boundary: bool, o: Frame)
    requires Tallied(book, misses)
    ensures Tallied(AfterFrame(book, boundary, o), misses + Misses(Open(Start(book, boundary, o)), o))
  {
    var start := Start(book, boundary, o);
    forall horizon: nat
      ensures MeanOf(misses + Misses(Open(start), o), horizon).samples
           == ScoredCount(AfterFrame(book, boundary, o), horizon)
    {
      CancelScoresNothing(book, o.frame, horizon);
      DecideScores(start, o, horizon);
      UnscoredTail(DecideAll(start, o), MadeIn(o), horizon);
      SamplesConcat(misses, Misses(Open(start), o), horizon);
    }
  }

  // ------------------------------------------------------------ what a ledger keeps

  /** A forecast is pending and not yet due, scored in its due frame, or cancelled. */
  predicate FairEntry(e: Entry, frame: int) {
    match e.fate
    case Pending => e.forecast.due > frame
    case ScoredAt(at) => at == e.forecast.due
    case CancelledAt(at) => true
  }

  ghost predicate Fair(book: seq<Entry>, frame: int) {
    forall i :: 0 <= i < |book| ==> FairEntry(book[i], frame)
  }

  lemma DecidedFair(e: Entry, last: int, o: Frame)
    requires FairEntry(e, last) && (o.contiguous ==> o.frame == last + 1)
    ensures FairEntry(Decided(e, o), o.frame)
  {
  }

  /** A frame that follows its predecessor decides what is due and leaves the rest; a boundary or a gap cancels. */
  lemma FrameFair(book: seq<Entry>, last: int, boundary: bool, o: Frame)
    requires Fair(book, last) && (o.contiguous ==> o.frame == last + 1)
    ensures Fair(AfterFrame(book, boundary, o), o.frame)
  {
    var start := Start(book, boundary, o);
    assert Fair(start, last);
    forall i | 0 <= i < |start| ensures FairEntry(DecideAll(start, o)[i], o.frame) {
      DecidedFair(start[i], last, o);
    }
    forall i | 0 <= i < |Issue(MadeIn(o))| ensures FairEntry(Issue(MadeIn(o))[i], o.frame) {}
  }

  /** A fate once decided is final, and a scored forecast is scored in its due frame under the held action. */
  lemma DecidedOnce(book: seq<Entry>, boundary: bool, o: Frame, i: nat)
    requires i < |book|
    ensures |AfterFrame(book, boundary, o)| == |book| + |MadeIn(o)|
    ensures var after := AfterFrame(book, boundary, o)[i];
            && after.forecast == book[i].forecast
            && (!book[i].fate.Pending? ==> after.fate == book[i].fate)
            && (book[i].fate.Pending? && after.fate.ScoredAt? ==>
                  && !boundary && o.contiguous && after.forecast.action == o.action
                  && after.fate.frame == o.frame == after.forecast.due)
  {
  }

  lemma {:induction false} OpenConcat(a: seq<Entry>, b: seq<Entry>)
    ensures Open(a + b) == Open(a) + Open(b) && CancelledCount(a + b) == CancelledCount(a) + CancelledCount(b)
    decreases |b|
  {
    if b == [] {
      assert a + b == a;
    } else {
      assert (a + b)[..|a + b| - 1] == a + b[..|b| - 1];
      OpenConcat(a, b[..|b| - 1]);
    }
  }

  lemma {:induction false} IssueOpens(made: seq<Forecast>)
    ensures Open(Issue(made)) == made && CancelledCount(Issue(made)) == 0
    decreases |made|
  {
    if made != [] {
      IssueOpens(made[..|made| - 1]);
      assert Issue(made)[..|made| - 1] == Issue(made[..|made| - 1]);
      assert made == made[..|made| - 1] + [made[|made| - 1]];
    }
  }

  /** The erase loop over the stored list is the decision over the ledger. */
  lemma {:induction false} DecideOpens(book: seq<Entry>, o: Frame)
    ensures Open(DecideAll(book, o)) == Filter(Open(book), IsKept(o))
    ensures CancelledCount(DecideAll(book, o)) == CancelledCount(book) + |Filter(Open(book), IsCancelled(o))|
    decreases |book|
  {
    if book != [] {
      var n := |book| - 1;
      DecideOpens(book[..n], o);
      DecideLast(book, o);
      if book[n].fate.Pending? {
        SiftNext(Open(book), |Open(book[..n])|, o);
        assert Open(book)[..|Open(book[..n])|] == Open(book[..n]) && Open(book)[..|Open(book)|] == Open(book);
      } else {
        assert Open(book) == Open(book[..n]) && Open(DecideAll(book, o)) == Open(DecideAll(book[..n], o));
      }
    }
  }

  /** The last entry of a ledger stays open when it is pending and kept, and is counted when it is then cancelled. */
  lemma {:induction false} DecideLast(book: seq<Entry>, o: Frame)
    requires book != []
    ensures var front, last := book[..|book| - 1], book[|book| - 1];
            && Open(book) == Open(front) + (if last.fate.Pending? then [last.forecast] else [])
            && Open(DecideAll(book, o))
               == Open(DecideAll(front, o))
                  + (if last.fate.Pending? && Kept(last.forecast, o) then [last.forecast] else [])
            && CancelledCount(DecideAll(book, o)) - CancelledCount(book)
               == CancelledCount(DecideAll(front, o)) - CancelledCount(front)
                  + (if last.fate.Pending? && Cancelled(last.forecast, o) then 1 else 0)
  {
    var n := |book| - 1;
    assert DecideAll(book, o)[..n] == DecideAll(book[..n], o);
  }

  lemma {:induction false} CancelOpens(book: seq<Entry>, frame: int)
    ensures Open(CancelAll(book, frame)) == []
    ensures CancelledCount(CancelAll(book, frame)) == CancelledCount(book) + |Open(book)|
    decreases |book|
  {
    if book != [] {
      var n := |book| - 1;
      CancelOpens(book[..n], frame);
      assert CancelAll(book, frame)[..n] == CancelAll(book[..n], frame);
    }
  }

  function ScoredTotal(book: seq<Entry>): nat
    decreases |book|
  {
    if book == [] then 0 else ScoredTotal(book[..|book| - 1]) + if book[|book| - 1].fate.ScoredAt? then 1 else 0
  }

  /** Nothing is lost: forecasts issued = pending + scored + cancelled. */
  lemma {:induction false} ForecastsAccount(book: seq<Entry>)
    ensures |book| == |Open(book)| + ScoredTotal(book) + CancelledCount(book)
    decreases |book|
  {
    if book != [] { ForecastsAccount(book[..|book| - 1]); }
  }

  /** Which forecasts a frame makes: every fourth frame, one for each of the horizons 1, 4, 8, 16 and 32 that the path
      reaches, due so many frames later at that point of the path, under the action held. */
  lemma {:induction false} MadeAre(o: Frame, f: Forecast)
    ensures f in MadeIn(o) <==>
              && o.forecasting && o.frame % 4 == 0 && f.horizon in {1, 4, 8, 16, 32} && f.horizon <= |o.path|
              && f == Forecast(o.frame + f.horizon, f.horizon, o.path[f.horizon - 1].x, o.path[f.horizon - 1].feet,
                               o.action)
  {
    if o.forecasting && o.frame % 4 == 0 { MadeUpTo(o, if |o.path| < 32 then |o.path| else 32, f); }
  }

  lemma {:induction false} MadeUpTo(o: Frame, steps: nat, f: Forecast)
    requires steps <= |o.path|
    ensures f in Made(o, steps) <==>
              && f.horizon in HORIZONS && f.horizon <= steps
              && f == Forecast(o.frame + f.horizon, f.horizon, o.path[f.horizon - 1].x, o.path[f.horizon - 1].feet,
                               o.action)
    decreases steps
  {
    if steps > 0 { MadeUpTo(o, steps - 1, f); }
  }

  /** From 256 samples on a new error moves the mean by one 256th of its distance. */
  lemma LaterErrors(m: ErrorMean, error: real)
    ensures m.samples >= 255 ==> AddError(m, error) == ErrorMean(m.samples + 1, m.mean + (error - m.mean) / 256.0)
  {
  }

  lemma {:induction false} OpenHas(book: seq<Entry>, i: nat)
    requires i < |book| && book[i].fate.Pending?
    ensures book[i].forecast in Open(book)
    decreases |book|
  {
    if i < |book| - 1 { OpenHas(book[..|book| - 1], i); }
  }

  lemma {:induction false} MissesHave(open: seq<Forecast>, o: Frame, f: Forecast)
    requires f in open && o.contiguous && f.action == o.action && o.frame == f.due
    ensures Miss(f.horizon, o.hypot(o.x - f.x, o.feet - f.feet)) in Misses(open, o)
    decreases |open|
  {
    if f in open[..|open| - 1] {
      MissesHave(open[..|open| - 1], o, f);
    } else {
      assert open == open[..|open| - 1] + [open[|open| - 1]];
      assert MissOf(f, o)[0] == Miss(f.horizon, o.hypot(o.x - f.x, o.feet - f.feet));
    }
  }

  lemma ScoredMissIn(book: seq<Entry>, o: Frame, i: nat)
    requires i < |book| && book[i].fate == Pending && Scored(book[i].forecast, o)
    ensures var f := book[i].forecast;
            Miss(f.horizon, o.hypot(o.x - f.x, o.feet - f.feet)) in Misses(Open(book), o)
  {
    OpenHas(book, i);
    MissesHave(Open(book), o, book[i].forecast);
  }
}
