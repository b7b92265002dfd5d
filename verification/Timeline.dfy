/** `present_timeline`: one pass over the cursors carrying readings forward. */
module Timeline {
  import opened Basics
  import opened FuelMix
  import opened TimelineBuckets

  const MATERIAL_GAP := 2_700
  const DEMAND_KEYS: set<string> := {"n", "national", "gb"}
  const CARBON_KEYS: set<string> := {"gb", "national"}

  /** `seriesKey` is already case-folded. */
  datatype Forecast = Forecast(
    metric: string, seriesKey: string, validFrom: int, issuedAt: int, retrievedAt: int, value: real)

  datatype Read = Read(
    windowStart: int, windowEnd: int, resolution: int,
    generation: seq<Reading<Fuel>>, demand: seq<Reading<real>>, frequency: seq<Reading<real>>,
    carbon: seq<Reading<real>>, forecasts: seq<Forecast>)

  datatype Sample =
    | Observed(timestamp: int, demand: real, carbon: real, frequency: Option<real>, generation: seq<FuelReading>)
    | Forecasted(timestamp: int, demand: real, carbon: real)

  // ------------------------------------------------------------------
  // Forecasts by bucket
  // ------------------------------------------------------------------

  predicate Wanted(f: Forecast, metric: string, keys: set<string>) {
    f.metric == metric && f.seriesKey in keys
  }

  predicate Newer(a: Forecast, b: Forecast) {
    a.issuedAt > b.issuedAt || (a.issuedAt == b.issuedAt && a.retrievedAt > b.retrievedAt)
  }

  /** The latest issued forecast for a bucket, then the latest retrieved, then the first listed. */
  function LastForecast(fs: seq<Forecast>, bucket: Bucketing, metric: string, keys: set<string>,
                        k: int): Option<Forecast> {
    if fs == [] then None else
      var init, f := LastForecast(fs[..|fs| - 1], bucket, metric, keys, k), fs[|fs| - 1];
      if Wanted(f, metric, keys) && bucket(f.validFrom) == k && (init.None? || Newer(f, init.value))
      then Some(f) else init
  }

  ghost predicate Candidate(fs: seq<Forecast>, bucket: Bucketing, metric: string, keys: set<string>, k: int,
                            f: Forecast) {
    f in fs && Wanted(f, metric, keys) && bucket(f.validFrom) == k
  }

  lemma {:induction false} LastForecastIsNewest(fs: seq<Forecast>, bucket: Bucketing, metric: string, keys: set<string>,
                                                k: int)
    ensures LastForecast(fs, bucket, metric, keys, k).None? <==> forall f :: !Candidate(fs, bucket, metric, keys, k, f)
    ensures forall x :: LastForecast(fs, bucket, metric, keys, k) == Some(x) ==>
      && Candidate(fs, bucket, metric, keys, k, x)
      && (forall f :: Candidate(fs, bucket, metric, keys, k, f) ==> !Newer(f, x))
  {
    if fs != [] {
      var init, last := fs[..|fs| - 1], fs[|fs| - 1];
      LastForecastIsNewest(init, bucket, metric, keys, k);
      assert fs == init + [last];
      assert forall f :: Candidate(fs, bucket, metric, keys, k, f) <==>
        Candidate(init, bucket, metric, keys, k, f)
          || (f == last && Wanted(f, metric, keys) && bucket(f.validFrom) == k);
    }
  }

  ghost predicate ForecastTable(fs: seq<Forecast>, bucket: Bucketing, metric: string, keys: set<string>,
                                table: map<int, Forecast>) {
    forall k :: (if k in table then Some(table[k]) else None) == LastForecast(fs, bucket, metric, keys, k)
  }

  method LatestForecastsByBucket(fs: seq<Forecast>, bucket: Bucketing, metric: string, keys: set<string>)
    returns (table: map<int, Forecast>)
    ensures ForecastTable(fs, bucket, metric, keys, table)
  {
    table := map[];
    for i := 0 to |fs|
      invariant ForecastTable(fs[..i], bucket, metric, keys, table)
    {
      assert fs[..i + 1][..i] == fs[..i];
      var f := fs[i];
      if f.metric != metric {
        continue;
      }
      if f.seriesKey !in keys {
        continue;
      }
      var key := bucket(f.validFrom);
      if key !in table || Newer(f, table[key]) {
        table := table[key := f];
      }
    }
    assert fs[..|fs|] == fs;
  }

  // ------------------------------------------------------------------
  // What is held at a cursor, and the sample it gives
  // ------------------------------------------------------------------

  datatype Held = Held(
    demand: Option<Reading<real>>, carbon: Option<Reading<real>>, frequency: Option<Reading<real>>,
    generation: seq<Reading<Fuel>>)

  /** The declarative lookup: per family, the newest of the buckets from the first up to the cursor. */
  function HeldAt(read: Read, bucket: Bucketing, first: int, c: int): Held {
    Held(Last(read.demand, bucket, first, c), Last(read.carbon, bucket, first, c),
         Last(read.frequency, bucket, first, c), LastBucket(read.generation, bucket, first, c))
  }

  predicate Within<V>(r: Reading<V>, gap: int, c: int) {
    c * SECOND - r.observedAt <= gap * SECOND
  }

  /** Everything a sample needs is present, and nothing of it is older than the gap. */
  predicate Ready(held: Held, gap: int, c: int) {
    && held.demand.Some? && Within(held.demand.value, gap, c)
    && held.carbon.Some? && Within(held.carbon.value, gap, c)
    && held.generation != [] && forall g :: g in held.generation ==> Within(g, gap, c)
  }

  function Fuels(rs: seq<Reading<Fuel>>): seq<Fuel> {
    seq(|rs|, (i: nat) requires i < |rs| => rs[i].value)
  }

  function SampleOf(held: Held, gap: int, c: int): Sample
    requires Ready(held, gap, c)
  {
    var frequency :=
      if held.frequency.Some? && Within(held.frequency.value, gap, c) then Some(held.frequency.value.value) else None;
    Observed(c, held.demand.value.value, held.carbon.value.value, frequency, Mix(Fuels(held.generation)))
  }

  /** The cursor's own sample, if it is due and ready. */
  function ObservedAt(read: Read, bucket: Bucketing, now: int, gap: int, first: int, c: int): seq<Sample> {
    var held := HeldAt(read, bucket, first, c);
    if c * SECOND <= now && Ready(held, gap, c) then [SampleOf(held, gap, c)] else []
  }

  /** The samples of the cursors from the first up to `c`. */
  function ObservedTo(read: Read, bucket: Bucketing, now: int, gap: int, first: int, c: int): seq<Sample>
    requires read.resolution > 0
    decreases c - first + read.resolution
  {
    if c < first then []
    else ObservedTo(read, bucket, now, gap, first, c - read.resolution) + ObservedAt(read, bucket, now, gap, first, c)
  }

  function ForecastAt(read: Read, bucket: Bucketing, c: int): seq<Sample> {
    var demand := LastForecast(read.forecasts, bucket, "demand", DEMAND_KEYS, c);
    var carbon := LastForecast(read.forecasts, bucket, "carbon_intensity", CARBON_KEYS, c);
    if demand.Some? && carbon.Some? then [Forecasted(c, demand.value.value, carbon.value.value)] else []
  }

  function ForecastTo(read: Read, bucket: Bucketing, first: int, c: int): seq<Sample>
    requires read.resolution > 0
    decreases c - first + read.resolution
  {
    if c < first then [] else
      ForecastTo(read, bucket, first, c - read.resolution) + ForecastAt(read, bucket, c)
  }

  function Later(s: int, t: int): int {
    if s < t then t else s
  }

  function ForecastStart(read: Read, now: int): int
    requires read.resolution > 0
  {
    var c := Bucket(Later(read.windowStart, now), read.resolution);
    if c * SECOND <= now then c + read.resolution else c
  }

  // ------------------------------------------------------------------
  // The loops
  // ------------------------------------------------------------------

  datatype Tables = Tables(
    demand: map<int, Reading<real>>, carbon: map<int, Reading<real>>, frequency: map<int, Reading<real>>,
    generation: map<int, seq<Reading<Fuel>>>)

  ghost predicate TablesFor(read: Read, bucket: Bucketing, tables: Tables) {
    && NewestByBucket(read.demand, bucket, tables.demand)
    && NewestByBucket(read.carbon, bucket, tables.carbon)
    && NewestByBucket(read.frequency, bucket, tables.frequency)
    && ListedByBucket(read.generation, bucket, tables.generation)
  }

  method BuildTables(read: Read, bucket: Bucketing) returns (tables: Tables)
    ensures TablesFor(read, bucket, tables)
  {
    var generation := AllByBucket(read.generation, bucket);
    var demand := LatestByBucket(read.demand, bucket);
    var frequency := LatestByBucket(read.frequency, bucket);
    var carbon := LatestByBucket(read.carbon, bucket);
    tables := Tables(demand, carbon, frequency, generation);
  }

  /** Looking up one cursor updates what is held to what the lookup over the whole range gives. */
  method Refresh(read: Read, bucket: Bucketing, tables: Tables, ghost first: int, c: int, held: Held)
    returns (next: Held)
    requires TablesFor(read, bucket, tables) && read.resolution > 0 && first <= c
    requires Monotone(bucket) && StepsAt(bucket, read.resolution, c)
    requires held == HeldAt(read, bucket, first, c - read.resolution)
    ensures next == HeldAt(read, bucket, first, c)
  {
    LastCarries(read.demand, bucket, read.resolution, first, c);
    LastCarries(read.carbon, bucket, read.resolution, first, c);
    LastCarries(read.frequency, bucket, read.resolution, first, c);
    LastBucketCarries(read.generation, bucket, read.resolution, first, c);
    next := held;
    if c in tables.demand {
      next := next.(demand := Some(tables.demand[c]));
    }
    if c in tables.carbon {
      next := next.(carbon := Some(tables.carbon[c]));
    }
    if c in tables.frequency {
      next := next.(frequency := Some(tables.frequency[c]));
    }
    if c in tables.generation {
      next := next.(generation := tables.generation[c]);
    }
  }

  /** The greatest age among the required readings present, or more than the gap when there is none. */
  method GreatestAge(held: Held, gap: int, c: int) returns (age: int)
    ensures held.demand.Some? && held.carbon.Some? && held.generation != [] ==>
      (age <= gap * SECOND <==> Ready(held, gap, c))
  {
    var ages: seq<int> := [];
    for i := 0 to |held.generation|
      invariant |ages| == i && forall j :: 0 <= j < i ==> ages[j] == c * SECOND - held.generation[j].observedAt
    {
      ages := ages + [c * SECOND - held.generation[i].observedAt];
    }
    ghost var n := |ages|;
    if held.demand.Some? {
      ages := ages + [c * SECOND - held.demand.value.observedAt];
    }
    if held.carbon.Some? {
      ages := ages + [c * SECOND - held.carbon.value.observedAt];
    }
    age := GreatestOf(ages, (gap + 1) * SECOND);
    if held.demand.Some? && held.carbon.Some? && held.generation != [] {
      assert ages[n] == c * SECOND - held.demand.value.observedAt
        && ages[n + 1] == c * SECOND - held.carbon.value.observedAt;
      if Ready(held, gap, c) {
        forall j | 0 <= j < |ages| ensures ages[j] <= gap * SECOND {
          assert j < n ==> held.generation[j] in held.generation;
        }
      } else if age <= gap * SECOND {
        forall g | g in held.generation ensures Within(g, gap, c) {
          var j :| 0 <= j < n && held.generation[j] == g;
          assert ages[j] <= age;
        }
      }
    }
  }

  method GreatestOf(ages: seq<int>, default: int) returns (age: int)
    ensures ages == [] ==> age == default
    ensures ages != [] ==> age in ages && forall j :: 0 <= j < |ages| ==> ages[j] <= age
  {
    if ages == [] {
      return default;
    }
    age := ages[0];
    for i := 1 to |ages|
      invariant age in ages && forall j :: 0 <= j < i ==> ages[j] <= age
    {
      if ages[i] > age {
        age := ages[i];
      }
    }
  }

  /** The sample of one cursor, if it is due and ready. */
  method Emit(held: Held, now: int, gap: int, c: int) returns (emitted: seq<Sample>)
    ensures emitted == if c * SECOND <= now && Ready(held, gap, c) then [SampleOf(held, gap, c)] else []
  {
    var age := GreatestAge(held, gap, c);
    if c * SECOND <= now && held.demand.Some? && held.carbon.Some? && held.generation != [] && age <= gap * SECOND {
      var mix := PresentMix(Fuels(held.generation));
      var frequency := None;
      if held.frequency.Some? && c * SECOND - held.frequency.value.observedAt <= gap * SECOND {
        frequency := Some(held.frequency.value.value);
      }
      return [Observed(c, held.demand.value.value, held.carbon.value.value, frequency, mix)];
    }
    emitted := [];
  }

  /** The cursors a loop visits: a grid closed under the step either way, of which no two points are closer, and
      where no bucket starts between two points. */
  ghost predicate Cursors(grid: int -> bool, bucket: Bucketing, resolution: int) {
    && resolution > 0 && Monotone(bucket)
    && (forall c :: grid(c) ==> StepsAt(bucket, resolution, c))
    && (forall c, d :: d == c + resolution ==> (grid(c) <==> grid(d)))
    && (forall c, d :: grid(c) && grid(d) && c < d ==> c + resolution <= d)
  }

  ghost function Multiples(resolution: int): int -> bool
    requires resolution > 0
  {
    (c: int) => OnGrid(c, resolution)
  }

  lemma MultiplesAreCursors(resolution: int)
    requires resolution > 0
    ensures Cursors(Multiples(resolution), At(resolution), resolution)
  {
    AtLands(resolution);
    forall c, d | d == c + resolution ensures OnGrid(c, resolution) <==> OnGrid(d, resolution) {
      GridStep(c, resolution);
    }
    forall c, d | OnGrid(c, resolution) && OnGrid(d, resolution) && c < d ensures c + resolution <= d {
      if d < c + resolution {
        GridApart(c, d, resolution);
      }
    }
  }

  lemma CursorStep(grid: int -> bool, bucket: Bucketing, resolution: int, c: int, end: int)
    requires Cursors(grid, bucket, resolution) && grid(c) && grid(end)
    ensures grid(c + resolution) && StepsAt(bucket, resolution, c)
    ensures c < end ==> c + resolution <= end
  {
    var d := c + resolution;
    assert grid(c) <==> grid(d);
  }

  lemma ObservedStep(read: Read, bucket: Bucketing, now: int, gap: int, first: int, c: int)
    requires read.resolution > 0 && first <= c
    ensures ObservedTo(read, bucket, now, gap, first, c)
      == ObservedTo(read, bucket, now, gap, first, c - read.resolution) + ObservedAt(read, bucket, now, gap, first, c)
  {}

  lemma ForecastStep(read: Read, bucket: Bucketing, first: int, c: int)
    requires read.resolution > 0 && first <= c
    ensures ForecastTo(read, bucket, first, c)
         == ForecastTo(read, bucket, first, c - read.resolution) + ForecastAt(read, bucket, c)
  {}

  method WalkObserved(read: Read, bucket: Bucketing, ghost grid: int -> bool, now: int, gap: int, first: int, end: int)
    returns (samples: seq<Sample>)
    requires Cursors(grid, bucket, read.resolution) && grid(first) && grid(end)
    ensures samples == ObservedTo(read, bucket, now, gap, first, end)
  {
    var tables := BuildTables(read, bucket);
    samples := [];
    var held := Held(None, None, None, []);
    var cursor := first;
    NothingBefore(read, bucket, first);
    while cursor <= end
      invariant first <= cursor && grid(cursor)
      invariant cursor == first || cursor <= end + read.resolution
      invariant held == HeldAt(read, bucket, first, cursor - read.resolution)
      invariant samples == ObservedTo(read, bucket, now, gap, first, cursor - read.resolution)
    {
      CursorStep(grid, bucket, read.resolution, cursor, end);
      ObservedStep(read, bucket, now, gap, first, cursor);
      held := Refresh(read, bucket, tables, first, cursor, held);
      var emitted := Emit(held, now, gap, cursor);
      samples := samples + emitted;
      cursor := cursor + read.resolution;
    }
  }

  method ObservedSamples(read: Read, now: int, gap: int) returns (samples: seq<Sample>)
    requires read.resolution > 0
    ensures samples == ObservedTo(read, At(read.resolution), now, gap, Bucket(read.windowStart, read.resolution),
                                  Bucket(read.windowEnd, read.resolution))
  {
    MultiplesAreCursors(read.resolution);
    BucketOnGrid(read.windowStart, read.resolution);
    BucketOnGrid(read.windowEnd, read.resolution);
    samples := WalkObserved(read, At(read.resolution), Multiples(read.resolution), now, gap,
                            Bucket(read.windowStart, read.resolution), Bucket(read.windowEnd, read.resolution));
  }

  lemma NothingBefore(read: Read, bucket: Bucketing, first: int)
    requires read.resolution > 0
    ensures HeldAt(read, bucket, first, first - read.resolution) == Held(None, None, None, [])
  {
    LastIsNewest(read.demand, bucket, first, first - read.resolution);
    LastIsNewest(read.carbon, bucket, first, first - read.resolution);
    LastIsNewest(read.frequency, bucket, first, first - read.resolution);
    LastIsNewest(read.generation, bucket, first, first - read.resolution);
  }

  /** A forecast sample needs both national demand and carbon in its bucket. */
  method EmitForecast(read: Read, bucket: Bucketing, demand: map<int, Forecast>, carbon: map<int, Forecast>, c: int)
    returns (emitted: seq<Sample>)
    requires ForecastTable(read.forecasts, bucket, "demand", DEMAND_KEYS, demand)
    requires ForecastTable(read.forecasts, bucket, "carbon_intensity", CARBON_KEYS, carbon)
    ensures emitted == ForecastAt(read, bucket, c)
  {
    if c in demand && c in carbon {
      emitted := [Forecasted(c, demand[c].value, carbon[c].value)];
    } else {
      emitted := [];
    }
  }

  method WalkForecast(read: Read, bucket: Bucketing, ghost grid: int -> bool, first: int, end: int)
    returns (samples: seq<Sample>)
    requires Cursors(grid, bucket, read.resolution) && grid(first) && grid(end)
    ensures samples == ForecastTo(read, bucket, first, end)
  {
    var demandForecasts := LatestForecastsByBucket(read.forecasts, bucket, "demand", DEMAND_KEYS);
    var carbonForecasts := LatestForecastsByBucket(read.forecasts, bucket, "carbon_intensity", CARBON_KEYS);
    samples := [];
    var cursor := first;
    while cursor <= end
      invariant first <= cursor && grid(cursor)
      invariant cursor == first || cursor <= end + read.resolution
      invariant samples == ForecastTo(read, bucket, first, cursor - read.resolution)
    {
      CursorStep(grid, bucket, read.resolution, cursor, end);
      ForecastStep(read, bucket, first, cursor);
      var emitted := EmitForecast(read, bucket, demandForecasts, carbonForecasts, cursor);
      samples := samples + emitted;
      cursor := cursor + read.resolution;
    }
  }

  method ForecastSamples(read: Read, now: int) returns (samples: seq<Sample>)
    requires read.resolution > 0
    ensures samples == ForecastTo(read, At(read.resolution), ForecastStart(read, now),
                                  Bucket(read.windowEnd, read.resolution))
  {
    var resolution := read.resolution;
    MultiplesAreCursors(resolution);
    BucketOnGrid(Later(read.windowStart, now), resolution);
    BucketOnGrid(read.windowEnd, resolution);
    var cursor := Bucket(Later(read.windowStart, now), resolution);
    if cursor * SECOND <= now {
      GridStep(cursor, resolution);
      cursor := cursor + resolution;
    }
    samples := WalkForecast(read, At(resolution), Multiples(resolution), cursor, Bucket(read.windowEnd, resolution));
  }

  /** The two loops' samples, by lookup alone. */
  function Samples(read: Read, now: int, gap: int): seq<Sample>
    requires read.resolution > 0
  {
    var bucket, end := At(read.resolution), Bucket(read.windowEnd, read.resolution);
    ObservedTo(read, bucket, now, gap, Bucket(read.windowStart, read.resolution), end)
    + ForecastTo(read, bucket, ForecastStart(read, now), end)
  }

  method PresentTimeline(read: Read, now: int, gap: int := MATERIAL_GAP) returns (samples: seq<Sample>)
    requires read.resolution > 0
    ensures samples == Samples(read, now, gap)
  {
    var observed := ObservedSamples(read, now, gap);
    var forecast := ForecastSamples(read, now);
    samples := observed + forecast;
  }
}
