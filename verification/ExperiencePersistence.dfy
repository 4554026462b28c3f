/** Export and import of the experience memory. A document is given by its fields; its text form is outside. */
module ExperiencePersistence {
  import opened Lists
  import opened Ordering
  import opened Wrappers
  import opened ExperienceMemory
  import opened ExperienceInvariant
  import opened ExperienceFrames
  import LengthPrefix

  const SCHEMA := "jevtpp_mario_experience"
  const LIMIT: nat := 1_000_000_000

  datatype StatsDoc = StatsDoc(count: nat, mean: Option<real>, minimum: Option<real>, maximum: Option<real>, m2: real)

  datatype ColumnDoc = ColumnDoc(
    world: int, stage: int, x: int, rows: seq<int>, observations: nat, changes: nat, seen: nat,
    epoch: int, frame: int, imported: bool)

  datatype EnemyDoc = EnemyDoc(kind: int, name: string, observations: nat, velocity: StatsDoc)

  datatype Document = Document(
    schema: string, version: int, environment: string, columns: seq<ColumnDoc>, enemies: seq<EnemyDoc>,
    observedFrames: nat, duration: StatsDoc, range: StatsDoc, height: StatsDoc, hold: StatsDoc,
    completed: nat, bounced: nat, successes: nat, failures: nat)

  // ------------------------------------------------------------------------ export

  function WriteStats(s: Stats): StatsDoc {
    if s.count == 0 then StatsDoc(0, None, None, None, s.m2)
    else StatsDoc(s.count, Some(s.mean), Some(s.minimum), Some(s.maximum), s.m2)
  }

  function WriteColumn(p: Place, c: Column): ColumnDoc {
    ColumnDoc(p.world, p.stage, p.x, c.rows, c.observations, c.changes, c.seen, c.epoch, c.frame, c.imported)
  }

  function WriteEnemy(kind: int, e: Enemy): EnemyDoc {
    EnemyDoc(kind, e.name, e.observations, WriteStats(e.velocity))
  }

  /** The key under which a column is stored. */
  function PlaceText(): Place -> string {
    (p: Place) => LengthPrefix.Decimal(p.world)
      + (":" + (LengthPrefix.Decimal(p.stage) + (":" + LengthPrefix.Decimal(p.x))))
  }

  function ByKind(): (int, int) -> bool { (a: int, b: int) => a < b }

  /** The orders in which the two maps of a memory are iterated. */
  ghost predicate Visits(s: Memory, places: seq<Place>, kinds: seq<int>) {
    Listing(places, s.columns.Keys, ByText(PlaceText())) && Listing(kinds, s.enemies.Keys, ByKind())
  }

  function WriteColumns(columns: map<Place, Column>, places: seq<Place>): (d: seq<ColumnDoc>)
    requires forall p :: p in places ==> p in columns
    ensures |d| == |places| && forall i :: 0 <= i < |d| ==> d[i] == WriteColumn(places[i], columns[places[i]])
  {
    seq(|places|, i requires 0 <= i < |places| =>
      assert places[i] in places; WriteColumn(places[i], columns[places[i]]))
  }

  function WriteEnemies(enemies: map<int, Enemy>, kinds: seq<int>): (d: seq<EnemyDoc>)
    requires forall k :: k in kinds ==> k in enemies
    ensures |d| == |kinds| && forall i :: 0 <= i < |d| ==> d[i] == WriteEnemy(kinds[i], enemies[kinds[i]])
  {
    seq(|kinds|, i requires 0 <= i < |kinds| => assert kinds[i] in kinds; WriteEnemy(kinds[i], enemies[kinds[i]]))
  }

  function Export(s: Memory, places: seq<Place>, kinds: seq<int>): Document
    requires (forall p :: p in places ==> p in s.columns) && forall k :: k in kinds ==> k in s.enemies
  {
    var f := s.flights;
    Document(SCHEMA, 1, s.environment, WriteColumns(s.columns, places), WriteEnemies(s.enemies, kinds),
             s.observedFrames, WriteStats(f.duration), WriteStats(f.range), WriteStats(f.height), WriteStats(f.hold),
             f.completed, f.bounced, s.successes, s.failures)
  }

  // ------------------------------------------------------------------------ import

  function ReadStats(d: StatsDoc): Option<Stats> {
    if d.count > LIMIT then None
    else if d.count == 0 then Some(NO_STATS)
    else if d.mean.None? || d.minimum.None? || d.maximum.None? then None
    else if d.m2 < 0.0 || d.minimum.value > d.mean.value || d.maximum.value < d.mean.value then None
    else Some(Stats(d.count, d.mean.value, d.m2, d.minimum.value, d.maximum.value))
  }

  predicate ReadableColumn(d: ColumnDoc) {
    && 1 <= d.world <= 99 && 1 <= d.stage <= 99 && 0 <= d.x <= 1000000 && d.x % 16 == 0
    && ValidRows(d.rows) && 1 <= d.observations <= LIMIT && d.changes <= d.observations
  }

  function ReadColumn(d: ColumnDoc): Column {
    Column(RowsOf(d.rows), d.observations, d.changes, d.seen, d.epoch, d.frame, true)
  }

  function LoadColumns(docs: seq<ColumnDoc>): Option<map<Place, Column>>
    decreases |docs|
  {
    if docs == [] then Some(map[])
    else
      var earlier, d := LoadColumns(docs[..|docs| - 1]), docs[|docs| - 1];
      if earlier.None? || !ReadableColumn(d) then None
      else Some(earlier.value[Place(d.world, d.stage, d.x) := ReadColumn(d)])
  }

  function NewestSeen(docs: seq<ColumnDoc>): nat
    decreases |docs|
  {
    if docs == [] then 0
    else
      var earlier, d := NewestSeen(docs[..|docs| - 1]), docs[|docs| - 1];
      if d.seen > earlier then d.seen else earlier
  }

  function ReadEnemy(d: EnemyDoc): Option<Enemy> {
    var velocity := ReadStats(d.velocity);
    if d.kind < 0 || d.kind > 255 || |d.name| > 128 || d.observations > LIMIT || velocity.None? then None
    else Some(Enemy(d.name, velocity.value, d.observations))
  }

  function LoadEnemies(docs: seq<EnemyDoc>): Option<map<int, Enemy>>
    decreases |docs|
  {
    if docs == [] then Some(map[])
    else
      var earlier, d := LoadEnemies(docs[..|docs| - 1]), docs[|docs| - 1];
      if earlier.None? || ReadEnemy(d).None? then None
      else Some(earlier.value[d.kind := ReadEnemy(d).value])
  }

  function LoadFlights(d: Document): Option<Flights> {
    var a, b, c, h := ReadStats(d.duration), ReadStats(d.range), ReadStats(d.height), ReadStats(d.hold);
    if a.None? || b.None? || c.None? || h.None? then None
    else if a.value.count != b.value.count || a.value.count != c.value.count || a.value.count != h.value.count then None
    else if d.completed > LIMIT || d.bounced > d.completed || a.value.count != d.completed - d.bounced then None
    else Some(Flights(a.value, b.value, c.value, h.value, d.completed, d.bounced))
  }

  /** A document is loaded as a whole or refused as a whole. */
  function Import(environment: string, d: Document): Option<Memory> {
    if d.schema != SCHEMA || d.version != 1 || d.environment != environment then None
    else if |d.columns| > MAX_COLUMNS || |d.enemies| > MAX_ENEMY_TYPES then None
    else
      var columns, enemies, flights := LoadColumns(d.columns), LoadEnemies(d.enemies), LoadFlights(d);
      if columns.None? || enemies.None? || flights.None? then None
      else if d.observedFrames > LIMIT || d.successes > d.observedFrames || d.failures > d.observedFrames then None
      else Some(Memory(environment, columns.value, enemies.value, flights.value, NewestSeen(d.columns),
                       d.observedFrames, d.successes, d.failures, NO_TRACKING))
  }

  // ----------------------------------------------------- what a document can carry

  /** The importer's bounds on sizes, coordinates, names and counts, and nothing about consistency. */
  ghost predicate WithinLimits(s: Memory) {
    && |s.columns| <= MAX_COLUMNS
    && (forall p :: p in s.columns ==>
          p.world <= 99 && p.stage <= 99 && p.x <= 1000000 && s.columns[p].observations <= LIMIT)
    && (forall k :: k in s.enemies ==>
          |s.enemies[k].name| <= 128 && s.enemies[k].observations <= LIMIT && s.enemies[k].velocity.count <= LIMIT)
    && s.flights.completed <= LIMIT && s.observedFrames <= LIMIT
  }

  function Marked(c: Column): Column { c.(imported := true) }

  /** What loading one's own export leaves: the same evidence, columns marked imported, tracking forgotten. */
  function Reloaded(s: Memory, seenOrder: nat): Memory {
    s.(columns := map p | p in s.columns :: Marked(s.columns[p]), seenOrder := seenOrder, tracking := NO_TRACKING)
  }

  lemma StatsRoundTrip(s: Stats)
    requires StatsOk(s)
    ensures ReadStats(WriteStats(s)) == if s.count <= LIMIT then Some(s) else None
  {
  }

  ghost predicate PlaceFits(columns: map<Place, Column>, p: Place)
    requires p in columns
  {
    p.world <= 99 && p.stage <= 99 && p.x <= 1000000 && columns[p].observations <= LIMIT
  }

  lemma ColumnRoundTrip(columns: map<Place, Column>, p: Place)
    requires ColumnsOk(columns) && p in columns
    ensures var d := WriteColumn(p, columns[p]);
            && (ReadableColumn(d) <==> PlaceFits(columns, p))
            && ReadColumn(d) == Marked(columns[p]) && Place(p.world, p.stage, p.x) == p
  {
    RowsOnce(columns[p].rows);
  }

  ghost predicate PlacesFit(columns: map<Place, Column>, places: seq<Place>) {
    forall p :: p in places ==> p in columns && PlaceFits(columns, p)
  }

  function MarkedAt(columns: map<Place, Column>, places: seq<Place>): map<Place, Column>
    requires forall p :: p in places ==> p in columns
  {
    map p | p in places :: Marked(columns[p])
  }

  lemma OnePlaceMore(columns: map<Place, Column>, front: seq<Place>, p: Place)
    requires (forall q :: q in front ==> q in columns) && p in columns
    ensures PlacesFit(columns, front + [p]) <==> PlacesFit(columns, front) && PlaceFits(columns, p)
    ensures MarkedAt(columns, front + [p]) == MarkedAt(columns, front)[p := Marked(columns[p])]
  {
  }

  lemma {:induction false} ColumnsRoundTrip(columns: map<Place, Column>, places: seq<Place>)
    requires ColumnsOk(columns) && forall p :: p in places ==> p in columns
    ensures LoadColumns(WriteColumns(columns, places))
         == if PlacesFit(columns, places) then Some(MarkedAt(columns, places)) else None
    decreases |places|
  {
    var docs := WriteColumns(columns, places);
    if places != [] {
      var n := |places| - 1;
      var front, last := places[..n], places[n];
      assert places == front + [last];
      ColumnsRoundTrip(columns, front);
      assert docs[..n] == WriteColumns(columns, front);
      ColumnRoundTrip(columns, last);
      OnePlaceMore(columns, front, last);
    }
  }

  ghost predicate EnemyFits(enemies: map<int, Enemy>, k: int)
    requires k in enemies
  {
    |enemies[k].name| <= 128 && enemies[k].observations <= LIMIT && enemies[k].velocity.count <= LIMIT
  }

  ghost predicate KindsFit(enemies: map<int, Enemy>, kinds: seq<int>) {
    forall k :: k in kinds ==> k in enemies && EnemyFits(enemies, k)
  }

  function EnemiesAt(enemies: map<int, Enemy>, kinds: seq<int>): map<int, Enemy>
    requires forall k :: k in kinds ==> k in enemies
  {
    map k | k in kinds :: enemies[k]
  }

  lemma OneKindMore(enemies: map<int, Enemy>, front: seq<int>, k: int)
    requires (forall j :: j in front ==> j in enemies) && k in enemies
    ensures KindsFit(enemies, front + [k]) <==> KindsFit(enemies, front) && EnemyFits(enemies, k)
    ensures EnemiesAt(enemies, front + [k]) == EnemiesAt(enemies, front)[k := enemies[k]]
  {
  }

  lemma {:induction false} EnemiesRoundTrip(enemies: map<int, Enemy>, kinds: seq<int>)
    requires EnemiesOk(enemies) && forall k :: k in kinds ==> k in enemies
    ensures LoadEnemies(WriteEnemies(enemies, kinds))
         == if KindsFit(enemies, kinds) then Some(EnemiesAt(enemies, kinds)) else None
    decreases |kinds|
  {
    var docs := WriteEnemies(enemies, kinds);
    if kinds != [] {
      var n := |kinds| - 1;
      var front, last := kinds[..n], kinds[n];
      assert kinds == front + [last];
      EnemiesRoundTrip(enemies, front);
      assert docs[..n] == WriteEnemies(enemies, front);
      StatsRoundTrip(enemies[last].velocity);
      OneKindMore(enemies, front, last);
    }
  }

  lemma FlightsRoundTrip(s: Memory, places: seq<Place>, kinds: seq<int>)
    requires FlightsOk(s.flights)
    requires (forall p :: p in places ==> p in s.columns) && forall k :: k in kinds ==> k in s.enemies
    ensures LoadFlights(Export(s, places, kinds)) == if s.flights.completed <= LIMIT then Some(s.flights) else None
  {
    StatsRoundTrip(s.flights.duration);
    StatsRoundTrip(s.flights.range);
    StatsRoundTrip(s.flights.height);
    StatsRoundTrip(s.flights.hold);
  }

  lemma ListingSize<K(!new)>(s: seq<K>, keys: set<K>, less: (K, K) -> bool)
    requires StrictOrder(less) && Listing(s, keys, less)
    ensures |s| == |keys|
    decreases |s|
  {
    if s == [] {
      assert keys == {};
    } else {
      DropLast(s, keys, less);
      ListingSize(s[..|s| - 1], keys - {s[|s| - 1]}, less);
      assert s[|s| - 1] in keys;
    }
  }

  lemma OrdersStrict()
    ensures StrictOrder(ByText(PlaceText())) && StrictOrder(ByKind())
  {
    ByTextStrict(PlaceText());
  }

  /** Exporting and importing: the importer accepts a memory's own document exactly when the memory is within
      its limits, and then loads the same evidence. No consistency check of the importer can fail. */
  lemma ExportImport(s: Memory, places: seq<Place>, kinds: seq<int>)
    requires Inv(s) && Visits(s, places, kinds)
    ensures var d := Export(s, places, kinds);
            Import(s.environment, d) == if WithinLimits(s) then Some(Reloaded(s, NewestSeen(d.columns))) else None
  {
    OrdersStrict();
    ListingSize(places, s.columns.Keys, ByText(PlaceText()));
    ListingSize(kinds, s.enemies.Keys, ByKind());
    ColumnsRoundTrip(s.columns, places);
    EnemiesRoundTrip(s.enemies, kinds);
    FlightsRoundTrip(s, places, kinds);
    SameKeys(s, places, kinds);
    LimitsByKey(s, places, kinds);
  }

  lemma SameKeys(s: Memory, places: seq<Place>, kinds: seq<int>)
    requires Visits(s, places, kinds)
    ensures MarkedAt(s.columns, places) == (map p | p in s.columns :: Marked(s.columns[p]))
    ensures EnemiesAt(s.enemies, kinds) == s.enemies
  {
  }

  lemma LimitsByKey(s: Memory, places: seq<Place>, kinds: seq<int>)
    requires Visits(s, places, kinds)
    ensures WithinLimits(s) <==>
              && |s.columns| <= MAX_COLUMNS && PlacesFit(s.columns, places) && KindsFit(s.enemies, kinds)
              && s.flights.completed <= LIMIT && s.observedFrames <= LIMIT
  {
    assert forall p :: p in s.columns <==> p in places;
    assert forall k :: k in s.enemies <==> k in kinds;
  }

  // ----------------------------------------------------------- imported memories

  lemma StatsRead(d: StatsDoc)
    ensures ReadStats(d).Some? ==> StatsOk(ReadStats(d).value) && ReadStats(d).value.count <= LIMIT
  {
  }

  lemma {:induction false} ColumnsRead(docs: seq<ColumnDoc>)
    ensures var r := LoadColumns(docs);
            r.Some? ==> ColumnsOk(r.value) && |r.value| <= |docs| && forall p :: p in r.value ==> PlaceFits(r.value, p)
    decreases |docs|
  {
    if docs != [] && LoadColumns(docs).Some? {
      var n := |docs| - 1;
      ColumnsRead(docs[..n]);
      RowsOnce(docs[n].rows);
      var before, place := LoadColumns(docs[..n]).value, Place(docs[n].world, docs[n].stage, docs[n].x);
      assert before[place := ReadColumn(docs[n])].Keys == before.Keys + {place};
    }
  }

  lemma {:induction false} EnemiesRead(docs: seq<EnemyDoc>)
    requires |docs| <= MAX_ENEMY_TYPES
    ensures var r := LoadEnemies(docs);
            r.Some? ==> EnemiesOk(r.value) && |r.value| <= |docs| && forall k :: k in r.value ==> EnemyFits(r.value, k)
    decreases |docs|
  {
    if docs != [] && LoadEnemies(docs).Some? {
      var n := |docs| - 1;
      EnemiesRead(docs[..n]);
      StatsRead(docs[n].velocity);
      var before := LoadEnemies(docs[..n]).value;
      assert before[docs[n].kind := ReadEnemy(docs[n]).value].Keys == before.Keys + {docs[n].kind};
    }
  }

  /** The checks on one set of statistics. */
  predicate StatsFine(d: StatsDoc) {
    && d.count <= 1000000000
    && (d.count > 0 ==>
          && d.mean != None && d.minimum != None && d.maximum != None
          && d.m2 >= 0.0 && d.minimum.value <= d.mean.value <= d.maximum.value)
  }

  predicate ColumnFine(d: ColumnDoc) {
    && 1 <= d.world <= 99 && 1 <= d.stage <= 99 && 0 <= d.x <= 1000000 && d.x % 16 == 0
    && |d.rows| <= 13 && (forall y :: y in d.rows ==> 32 <= y <= 224 && y % 16 == 0)
    && 1 <= d.observations <= 1000000000 && d.changes <= d.observations
  }

  predicate EnemyFine(d: EnemyDoc) {
    0 <= d.kind <= 255 && |d.name| <= 128 && d.observations <= 1000000000 && StatsFine(d.velocity)
  }

  /** Exactly which documents the importer accepts. */
  lemma ImportAccepts(environment: string, d: Document)
    ensures Import(environment, d).Some? <==>
              && d.schema == "jevtpp_mario_experience" && d.version == 1 && d.environment == environment
              && |d.columns| <= 512 && |d.enemies| <= 64
              && (forall i :: 0 <= i < |d.columns| ==> ColumnFine(d.columns[i]))
              && (forall i :: 0 <= i < |d.enemies| ==> EnemyFine(d.enemies[i]))
              && StatsFine(d.duration) && StatsFine(d.range) && StatsFine(d.height) && StatsFine(d.hold)
              && d.range.count == d.duration.count && d.height.count == d.duration.count
              && d.hold.count == d.duration.count
              && d.completed <= 1000000000 && d.duration.count + d.bounced == d.completed
              && d.observedFrames <= 1000000000
              && d.successes <= d.observedFrames && d.failures <= d.observedFrames
  {
    ColumnsAccepted(d.columns);
    EnemiesAccepted(d.enemies);
    FlightsAccepted(d);
  }

  lemma StatsAccepted(d: StatsDoc)
    ensures ReadStats(d).Some? <==> StatsFine(d)
    ensures StatsFine(d) ==> ReadStats(d).value.count == d.count
  {
  }

  lemma FlightsAccepted(d: Document)
    ensures LoadFlights(d).Some? <==>
              && StatsFine(d.duration) && StatsFine(d.range) && StatsFine(d.height) && StatsFine(d.hold)
              && d.range.count == d.duration.count && d.height.count == d.duration.count
              && d.hold.count == d.duration.count
              && d.completed <= 1000000000 && d.duration.count + d.bounced == d.completed
  {
    StatsAccepted(d.duration);
    StatsAccepted(d.range);
    StatsAccepted(d.height);
    StatsAccepted(d.hold);
  }

  lemma {:induction false} ColumnsAccepted(docs: seq<ColumnDoc>)
    ensures LoadColumns(docs).Some? <==> forall i :: 0 <= i < |docs| ==> ColumnFine(docs[i])
    decreases |docs|
  {
    if docs != [] {
      ColumnsAccepted(docs[..|docs| - 1]);
      ColumnAccepted(docs[|docs| - 1]);
      assert forall i :: 0 <= i < |docs| - 1 ==> docs[..|docs| - 1][i] == docs[i];
    }
  }

  lemma ColumnAccepted(d: ColumnDoc)
    ensures ReadableColumn(d) <==> ColumnFine(d)
  {
    RowsAre(d.rows);
  }

  lemma {:induction false} EnemiesAccepted(docs: seq<EnemyDoc>)
    ensures LoadEnemies(docs).Some? <==> forall i :: 0 <= i < |docs| ==> EnemyFine(docs[i])
    decreases |docs|
  {
    if docs != [] {
      EnemiesAccepted(docs[..|docs| - 1]);
      StatsAccepted(docs[|docs| - 1].velocity);
      assert forall i :: 0 <= i < |docs| - 1 ==> docs[..|docs| - 1][i] == docs[i];
    }
  }

  /** Whatever document was accepted, the memory it leaves is consistent and within the limits. */
  lemma ImportKeeps(environment: string, d: Document)
    ensures Import(environment, d).Some? ==>
              && Inv(Import(environment, d).value) && WithinLimits(Import(environment, d).value)
              && Import(environment, d).value.environment == environment
  {
    if Import(environment, d).Some? {
      ColumnsRead(d.columns);
      EnemiesRead(d.enemies);
      StatsRead(d.duration);
      StatsRead(d.range);
      StatsRead(d.height);
      StatsRead(d.hold);
      var t := Import(environment, d).value;
      assert forall p :: p in t.columns ==> PlaceFits(t.columns, p);
      assert forall k :: k in t.enemies ==> EnemyFits(t.enemies, k);
    }
  }

  // -------------------------------------------------------------------------- runs

  datatype Step = Frame(o: Telemetry, kept: map<Place, Column>) | NewEpisode(epoch: int) | Load(d: Document)

  ghost predicate Possible(s: Memory, step: Step) {
    step.Frame? ==> Leaves(s, step.o, step.kept)
  }

  /** A refused document leaves the memory as it is. */
  function Next(s: Memory, step: Step): Memory {
    match step
    case Frame(o, kept) => Observe(s, o, kept)
    case NewEpisode(epoch) => s.(tracking := ResetEpisode(s.tracking, epoch))
    case Load(d) => match Import(s.environment, d) case Some(t) => t case None => s
  }

  ghost predicate Run(s: Memory, steps: seq<Step>, end: Memory)
    decreases |steps|
  {
    if steps == [] then end == s else Possible(s, steps[0]) && Run(Next(s, steps[0]), steps[1..], end)
  }

  lemma {:induction false} RunKeeps(s: Memory, steps: seq<Step>, end: Memory)
    requires Inv(s) && Run(s, steps, end)
    ensures Inv(end) && end.environment == s.environment
    decreases |steps|
  {
    if steps != [] {
      match steps[0] {
        case Frame(o, kept) => ObserveKeeps(s, o, kept);
        case NewEpisode(epoch) =>
        case Load(d) => ImportKeeps(s.environment, d);
      }
      RunKeeps(Next(s, steps[0]), steps[1..], end);
    }
  }

  /** The same document, except that every column is marked imported. */
  ghost predicate SameButMarked(d: Document, again: Document) {
    && again == d.(columns := again.columns) && |again.columns| == |d.columns|
    && forall i :: 0 <= i < |d.columns| ==> again.columns[i] == d.columns[i].(imported := true)
  }

  /** The importer accepts a memory's own document exactly when the memory is within the limits; exporting what
      it then loads gives the same document, its columns marked imported. */
  ghost predicate RoundTrips(s: Memory, places: seq<Place>, kinds: seq<int>)
    requires Visits(s, places, kinds)
  {
    match Import(s.environment, Export(s, places, kinds))
    case None => !WithinLimits(s)
    case Some(t) =>
      && WithinLimits(s) && Visits(t, places, kinds)
      && SameButMarked(Export(s, places, kinds), Export(t, places, kinds))
  }

  lemma RoundTrip(s: Memory, places: seq<Place>, kinds: seq<int>)
    requires Inv(s) && Visits(s, places, kinds)
    ensures RoundTrips(s, places, kinds)
  {
    ExportImport(s, places, kinds);
    Reexported(s, NewestSeen(Export(s, places, kinds).columns), places, kinds);
  }

  /** So it is in every state of every run: frames, resets and imports in any order, from a fresh memory. */
  lemma ReachableRoundTrip(environment: string, steps: seq<Step>, s: Memory, places: seq<Place>, kinds: seq<int>)
    requires Run(Fresh(environment), steps, s) && Visits(s, places, kinds)
    ensures RoundTrips(s, places, kinds)
  {
    FreshInv(environment);
    RunKeeps(Fresh(environment), steps, s);
    RoundTrip(s, places, kinds);
  }

  lemma FreshInv(environment: string)
    ensures Inv(Fresh(environment))
  {
  }

  lemma Reexported(s: Memory, seenOrder: nat, places: seq<Place>, kinds: seq<int>)
    requires Visits(s, places, kinds)
    ensures Visits(Reloaded(s, seenOrder), places, kinds)
    ensures SameButMarked(Export(s, places, kinds), Export(Reloaded(s, seenOrder), places, kinds))
  {
  }

  /** The iteration orders exist and are unique, so a memory has exactly one export. */
  lemma ExportUnique(s: Memory) returns (places: seq<Place>, kinds: seq<int>)
    ensures Visits(s, places, kinds)
    ensures forall p, k :: Visits(s, p, k) ==> p == places && k == kinds
  {
    OrdersStrict();
    forall a, b | a in s.columns.Keys && b in s.columns.Keys && PlaceText()(a) == PlaceText()(b) ensures a == b {
      PlaceTextInjective(a, b);
    }
    ByTextTotal(PlaceText(), s.columns.Keys);
    places := ListingExists(s.columns.Keys, ByText(PlaceText()));
    kinds := ListingExists(s.enemies.Keys, ByKind());
    forall p, k | Visits(s, p, k) ensures p == places && k == kinds {
      ListingUnique(p, places, s.columns.Keys, ByText(PlaceText()));
      ListingUnique(k, kinds, s.enemies.Keys, ByKind());
    }
  }

  /** Columns of different places have different keys. */
  lemma PlaceTextInjective(a: Place, b: Place)
    requires PlaceText()(a) == PlaceText()(b)
    ensures a == b
  {
    var restA := LengthPrefix.Decimal(a.stage) + (":" + LengthPrefix.Decimal(a.x));
    var restB := LengthPrefix.Decimal(b.stage) + (":" + LengthPrefix.Decimal(b.x));
    NumberFirst(a.world, restA, b.world, restB);
    NumberFirst(a.stage, LengthPrefix.Decimal(a.x), b.stage, LengthPrefix.Decimal(b.x));
    assert LengthPrefix.Decimal(a.x) + (":" + "") == LengthPrefix.Decimal(b.x) + (":" + "");
    NumberFirst(a.x, "", b.x, "");
  }

  lemma NumberFirst(m: nat, restM: string, n: nat, restN: string)
    requires LengthPrefix.Decimal(m) + (":" + restM) == LengthPrefix.Decimal(n) + (":" + restN)
    ensures m == n && restM == restN
  {
    LengthPrefix.NumberRead(m, ":" + restM);
    LengthPrefix.NumberRead(n, ":" + restN);
    assert (":" + restM)[1..] == restM && (":" + restN)[1..] == restN;
  }

  // -------------------------------------------- which frames stay within the limits

  ghost predicate KeysWithin(s: Memory) {
    && (forall p :: p in s.columns ==> p.world <= 99 && p.stage <= 99 && p.x <= 1000000)
    && forall k :: k in s.enemies ==> |s.enemies[k].name| <= 128
  }

  ghost predicate CountsWithin(s: Memory, n: nat) {
    && (forall p :: p in s.columns ==> s.columns[p].observations <= n)
    && (forall k :: k in s.enemies ==> s.enemies[k].observations <= n && s.enemies[k].velocity.count <= n)
    && s.flights.completed <= n && s.observedFrames <= n
  }

  /** Consistent, within the sizes, coordinates and names, and no count above n. */
  ghost predicate Fits(s: Memory, n: nat) {
    Inv(s) && |s.columns| <= MAX_COLUMNS && KeysWithin(s) && CountsWithin(s, n)
  }

  lemma LimitsSplit(s: Memory)
    ensures WithinLimits(s) <==> |s.columns| <= MAX_COLUMNS && KeysWithin(s) && CountsWithin(s, LIMIT)
  {
  }

  /** A frame whose level, columns and names are within the importer's limits. */
  predicate FrameFits(o: Telemetry) {
    KnownLevel(o) ==>
      && o.world.value <= 99 && o.stage.value <= 99
      && (forall i :: 0 <= i < |o.candidates| && Eligible(o, o.candidates[i].x) ==> o.candidates[i].x <= 1000000)
      && forall i :: 0 <= i < |o.hostiles| ==> |o.hostiles[i].name| <= 128
  }

  predicate RowsInvalid(o: Telemetry, c: Candidate) { Eligible(o, c.x) && !ValidRows(c.rows) }

  /** A scan throws exactly when some candidate inside the visible window has an invalid row list. */
  lemma {:induction false} ThrowsIff(columns: map<Place, Column>, seenOrder: nat, o: Telemetry,
    candidates: seq<Candidate>)
    requires KnownLevel(o)
    ensures ScanAll(columns, seenOrder, o, candidates).threw
       <==> exists i :: 0 <= i < |candidates| && RowsInvalid(o, candidates[i])
    decreases |candidates|
  {
    if candidates != [] {
      var front, last := candidates[..|candidates| - 1], candidates[|candidates| - 1];
      ThrowsIff(columns, seenOrder, o, front);
      assert forall i :: 0 <= i < |front| ==> front[i] == candidates[i];
    }
  }

  /** The size after a frame, exactly: the limit is exceeded when the columns scanned exceed it and the eviction is
      not reached. From within the limit that takes a throw; a later frame that scans without throwing restores it. */
  lemma SizeAfter(s: Memory, o: Telemetry, kept: map<Place, Column>)
    requires Leaves(s, o, kept) && KnownLevel(o) && !Stale(Identified(s.tracking, o), o)
    ensures |Observe(s, o, kept).columns| > 512 <==>
              |Scanned(s, o).columns| > 512 && (Scanned(s, o).threw || !o.collision || o.episodeDead || o.sessionDead)
    ensures |s.columns| <= 512 ==>
              (|Observe(s, o, kept).columns| > 512 <==> Scanned(s, o).threw && |Scanned(s, o).columns| > 512)
  {
  }

  ghost predicate ColumnsWithin(columns: map<Place, Column>, n: nat) {
    forall p :: p in columns ==> p.world <= 99 && p.stage <= 99 && p.x <= 1000000 && columns[p].observations <= n
  }

  lemma {:induction false} ScanWithin(columns: map<Place, Column>, seenOrder: nat, o: Telemetry,
    candidates: seq<Candidate>, n: nat)
    requires KnownLevel(o) && o.world.value <= 99 && o.stage.value <= 99 && ColumnsWithin(columns, n)
    requires forall i :: 0 <= i < |candidates| && Eligible(o, candidates[i].x) ==> candidates[i].x <= 1000000
    ensures ColumnsWithin(ScanAll(columns, seenOrder, o, candidates).columns, n + |candidates|)
    decreases |candidates|
  {
    if candidates != [] {
      var front := candidates[..|candidates| - 1];
      assert forall i :: 0 <= i < |front| ==> front[i] == candidates[i];
      ScanWithin(columns, seenOrder, o, front, n);
    }
  }

  ghost predicate EnemiesWithin(enemies: map<int, Enemy>, n: nat) {
    forall k :: k in enemies ==>
      |enemies[k].name| <= 128 && enemies[k].observations <= n && enemies[k].velocity.count <= n
  }

  lemma {:induction false} MeetWithin(enemies: map<int, Enemy>, previous: map<int, Sighting>, hostiles: seq<Hostile>,
    frame: int, n: nat)
    requires EnemiesWithin(enemies, n) && forall i :: 0 <= i < |hostiles| ==> |hostiles[i].name| <= 128
    ensures EnemiesWithin(MeetAll(enemies, previous, hostiles, frame).enemies, n + |hostiles|)
    decreases |hostiles|
  {
    if hostiles != [] {
      var front := hostiles[..|hostiles| - 1];
      assert forall i :: 0 <= i < |front| ==> front[i] == hostiles[i];
      MeetWithin(enemies, previous, front, frame, n);
    }
  }

  /** How much one frame can add to any count. */
  function Weight(step: Step): nat {
    match step
    case Frame(o, _) => 1 + |o.candidates| + |o.hostiles|
    case _ => 0
  }

  function Weights(steps: seq<Step>): nat {
    if steps == [] then 0 else Weight(steps[0]) + Weights(steps[1..])
  }

  /** A frame within the limits leaves keys and names within them, and counts within what it adds. */
  lemma FrameWithin(s: Memory, o: Telemetry, kept: map<Place, Column>, n: nat)
    requires Leaves(s, o, kept) && FrameFits(o) && KeysWithin(s) && CountsWithin(s, n)
    ensures KeysWithin(Observe(s, o, kept)) && CountsWithin(Observe(s, o, kept), n + Weight(Frame(o, kept)))
  {
    var t := Identified(s.tracking, o);
    if !Stale(t, o) && KnownLevel(o) {
      ColumnsStayWithin(s, o, kept, n);
      MeetWithin(s.enemies, t.sightings, o.hostiles, o.frame, n);
      FewFlights(s.flights, t, o);
      var after := Observe(s, o, kept);
      assert after.columns == kept;
      assert after.enemies == s.enemies ||
        after.enemies == MeetAll(s.enemies, t.sightings, o.hostiles, o.frame).enemies;
    }
  }

  lemma ColumnsStayWithin(s: Memory, o: Telemetry, kept: map<Place, Column>, n: nat)
    requires Leaves(s, o, kept) && FrameFits(o) && ColumnsWithin(s.columns, n)
    requires KnownLevel(o) && !Stale(Identified(s.tracking, o), o)
    ensures ColumnsWithin(kept, n + |o.candidates|)
  {
    ScanWithin(s.columns, s.seenOrder, o, o.candidates, n);
  }

  lemma FewFlights(f: Flights, t: Tracking, o: Telemetry)
    ensures Flown(f, t, o).0.completed <= f.completed + 1
  {
  }

  /** After a frame within the limits the importer refuses the memory's document exactly when the frame threw after
      the scan had gone beyond the size limit. */
  lemma ThrowSkipsEviction(s: Memory, o: Telemetry, kept: map<Place, Column>, n: nat, places: seq<Place>,
    kinds: seq<int>)
    requires Fits(s, n) && Leaves(s, o, kept) && FrameFits(o) && n + Weight(Frame(o, kept)) <= LIMIT
    requires Visits(Observe(s, o, kept), places, kinds)
    ensures Import(s.environment, Export(Observe(s, o, kept), places, kinds)).None? <==>
              && KnownLevel(o) && !Stale(Identified(s.tracking, o), o)
              && Scanned(s, o).threw && |Scanned(s, o).columns| > MAX_COLUMNS
  {
    var after := Observe(s, o, kept);
    ObserveKeeps(s, o, kept);
    FrameWithin(s, o, kept, n);
    LimitsSplit(after);
    ExportImport(after, places, kinds);
    if KnownLevel(o) && !Stale(Identified(s.tracking, o), o) { SizeAfter(s, o, kept); }
  }

  /** Such a frame for every full memory: a new column, then an invalid row list. */
  lemma FullMemoryOverflows(s: Memory, o: Telemetry, first: Candidate, second: Candidate)
    requires |s.columns| == MAX_COLUMNS && KnownLevel(o) && !Stale(Identified(s.tracking, o), o)
    requires o.collision && !Dead(o) && o.candidates == [first, second]
    requires Eligible(o, first.x) && ValidRows(first.rows) && RowsInvalid(o, second)
    requires Place(o.world.value, o.stage.value, first.x) !in s.columns
    ensures Scanned(s, o).threw && |Scanned(s, o).columns| == MAX_COLUMNS + 1 && Leaves(s, o, Scanned(s, o).columns)
  {
    assert o.candidates[..1] == [first] && [first][..0] == [];
    assert ScanAll(s.columns, s.seenOrder, o, []) == Scan(s.columns, s.seenOrder, false);
    var place := Place(o.world.value, o.stage.value, first.x);
    var one := ScanAll(s.columns, s.seenOrder, o, [first]);
    assert one.columns == s.columns[place := Observed(None, first.rows, o, s.seenOrder + 1)];
    assert Scanned(s, o) == one.(threw := true);
    assert one.columns.Keys == s.columns.Keys + {place};
  }

  /** An episode reset, or a frame within the limits none of whose row lists is invalid. */
  predicate Fitting(step: Step) {
    match step
    case Frame(o, _) =>
      FrameFits(o) && forall i :: 0 <= i < |o.candidates| ==> !RowsInvalid(o, o.candidates[i])
    case NewEpisode(_) => true
    case Load(_) => false
  }

  lemma StepWithin(s: Memory, step: Step, n: nat)
    requires Fits(s, n) && Possible(s, step) && Fitting(step)
    ensures Fits(Next(s, step), n + Weight(step))
  {
    if step.Frame? {
      var o := step.o;
      ObserveKeeps(s, o, step.kept);
      FrameWithin(s, o, step.kept, n);
      if KnownLevel(o) && !Stale(Identified(s.tracking, o), o) {
        ThrowsIff(s.columns, s.seenOrder, o, o.candidates);
        SizeAfter(s, o, step.kept);
      }
    }
  }

  lemma {:induction false} RunWithin(s: Memory, steps: seq<Step>, end: Memory, n: nat)
    requires Fits(s, n)
    requires Run(s, steps, end) && forall i :: 0 <= i < |steps| ==> Fitting(steps[i])
    ensures Fits(end, n + Weights(steps))
    decreases |steps|
  {
    if steps != [] {
      StepWithin(s, steps[0], n);
      RunWithin(Next(s, steps[0]), steps[1..], end, n + Weight(steps[0]));
    }
  }

  /** The importer takes the memory's own document. */
  ghost predicate Accepted(s: Memory) {
    forall places, kinds :: Visits(s, places, kinds) ==> Import(s.environment, Export(s, places, kinds)).Some?
  }

  lemma FittingAccepted(s: Memory, n: nat)
    requires Fits(s, n) && n <= LIMIT
    ensures Accepted(s)
  {
    LimitsSplit(s);
    forall places, kinds | Visits(s, places, kinds) ensures Import(s.environment, Export(s, places, kinds)).Some? {
      ExportImport(s, places, kinds);
    }
  }

  /** From inputs to acceptance: frames whose coordinates and names are within the importer's limits, whose row lists
      are valid and which together cannot exceed its counts, end in a memory whose document the importer takes, from
      any consistent memory within the limits. */
  lemma RunAccepted(s: Memory, steps: seq<Step>, end: Memory)
    requires exists n: nat :: Fits(s, n) && n + Weights(steps) <= LIMIT
    requires Run(s, steps, end) && forall i :: 0 <= i < |steps| ==> Fitting(steps[i])
    ensures Accepted(end)
  {
    var n: nat :| Fits(s, n) && n + Weights(steps) <= LIMIT;
    RunWithin(s, steps, end, n);
    FittingAccepted(end, n + Weights(steps));
  }

  ghost predicate Empty(s: Memory) {
    && s.columns == map[] && s.enemies == map[] && s.flights == NO_FLIGHTS
    && s.observedFrames == s.successes == s.failures == 0
  }

  lemma EmptyInv(s: Memory)
    requires Empty(s)
    ensures Inv(s)
  {
  }

  lemma EmptyWithin(s: Memory)
    requires Empty(s)
    ensures |s.columns| <= MAX_COLUMNS && KeysWithin(s) && CountsWithin(s, 0)
  {
  }

  lemma EmptyFits(s: Memory)
    requires Empty(s)
    ensures Fits(s, 0)
  {
    EmptyInv(s);
    EmptyWithin(s);
  }

  lemma {:induction false} LastStep(s: Memory, steps: seq<Step>, end: Memory) returns (before: Memory)
    requires steps != [] && Run(s, steps, end)
    ensures Run(s, steps[..|steps| - 1], before)
    ensures Possible(before, steps[|steps| - 1]) && end == Next(before, steps[|steps| - 1])
    decreases |steps|
  {
    if |steps| == 1 {
      before := s;
    } else {
      before := LastStep(Next(s, steps[0]), steps[1..], end);
      assert steps[..|steps| - 1][1..] == steps[1..][..|steps| - 2];
    }
  }

  lemma {:induction false} WeightsNext(steps: seq<Step>, last: Step)
    ensures Weights(steps + [last]) == Weights(steps) + Weight(last)
  {
    if steps != [] {
      assert (steps + [last])[1..] == steps[1..] + [last];
      WeightsNext(steps[1..], last);
    }
  }

  lemma {:induction false} FreshRunWithin(environment: string, steps: seq<Step>, end: Memory)
    requires Run(Fresh(environment), steps, end) && forall i :: 0 <= i < |steps| ==> Fitting(steps[i])
    ensures Fits(end, Weights(steps))
    decreases |steps|
  {
    if steps == [] {
      EmptyFits(end);
    } else {
      var front, last := steps[..|steps| - 1], steps[|steps| - 1];
      assert steps == front + [last];
      var before := LastStep(Fresh(environment), steps, end);
      FreshRunWithin(environment, front, before);
      WeightsNext(front, last);
      StepWithin(before, last, Weights(front));
    }
  }

  /** In particular from a fresh memory. */
  lemma FreshRunAccepted(environment: string, steps: seq<Step>, end: Memory)
    requires Run(Fresh(environment), steps, end) && forall i :: 0 <= i < |steps| ==> Fitting(steps[i])
    requires Weights(steps) <= LIMIT
    ensures Accepted(end)
  {
    FreshRunWithin(environment, steps, end);
    FittingAccepted(end, Weights(steps));
  }
}
