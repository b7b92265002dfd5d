/** What the timeline's samples carry, in terms of the readings' and forecasts' own fields. */
module TimelineMeaning {
  import opened Basics
  import opened FuelMix
  import opened TimelineBuckets
  import opened Timeline
  import opened TimelineLaws

  // ------------------------------------------------------------------
  // Forecast samples
  // ------------------------------------------------------------------

  predicate About(f: Forecast, resolution: int, metric: string, keys: set<string>, k: int)
    requires resolution > 0
  {
    f.metric == metric && f.seriesKey in keys && Bucket(f.validFrom, resolution) == k
  }

  /** Issued later, or retrieved later at the same issue. */
  predicate IssuedAfter(f: Forecast, g: Forecast) {
    f.issuedAt > g.issuedAt || (f.issuedAt == g.issuedAt && f.retrievedAt > g.retrievedAt)
  }

  /** Of the forecasts about the bucket, none is issued after the one at `i`, and none listed before it is as late. */
  ghost predicate LatestAbout(fs: seq<Forecast>, resolution: int, metric: string, keys: set<string>, k: int, i: nat)
    requires resolution > 0
  {
    && i < |fs| && About(fs[i], resolution, metric, keys, k)
    && (forall j :: 0 <= j < |fs| && About(fs[j], resolution, metric, keys, k) ==>
         !IssuedAfter(fs[j], fs[i]) && (j < i ==> IssuedAfter(fs[i], fs[j])))
  }

  ghost predicate Found(fs: seq<Forecast>, resolution: int, metric: string, keys: set<string>, k: int,
                        x: Option<Forecast>)
    requires resolution > 0
  {
    match x
    case None => forall j :: 0 <= j < |fs| ==> !About(fs[j], resolution, metric, keys, k)
    case Some(f) => exists i: nat :: LatestAbout(fs, resolution, metric, keys, k, i) && fs[i] == f
  }

  lemma FoundStep(init: seq<Forecast>, f: Forecast, resolution: int, metric: string, keys: set<string>, k: int,
                  x: Option<Forecast>)
    requires resolution > 0 && Found(init, resolution, metric, keys, k, x)
    ensures
      var replaced := About(f, resolution, metric, keys, k) && (x.None? || IssuedAfter(f, x.value));
      Found(init + [f], resolution, metric, keys, k, if replaced then Some(f) else x)
  {
    var fs := init + [f];
    assert forall j :: 0 <= j < |init| ==> fs[j] == init[j];
    if x.Some? {
      var i: nat :| LatestAbout(init, resolution, metric, keys, k, i) && init[i] == x.value;
      LaterForecast(init, f, resolution, metric, keys, k, i);
      assert fs[i] == x.value && fs[|init|] == f;
    } else if About(f, resolution, metric, keys, k) {
      assert LatestAbout(fs, resolution, metric, keys, k, |init|);
    }
  }

  lemma {:induction false} LastForecastAt(fs: seq<Forecast>, resolution: int, metric: string, keys: set<string>, k: int)
    requires resolution > 0
    ensures Found(fs, resolution, metric, keys, k, LastForecast(fs, At(resolution), metric, keys, k))
  {
    if fs != [] {
      var init, f := fs[..|fs| - 1], fs[|fs| - 1];
      LastForecastAt(init, resolution, metric, keys, k);
      FoundStep(init, f, resolution, metric, keys, k, LastForecast(init, At(resolution), metric, keys, k));
      assert fs == init + [f];
    }
  }

  lemma LaterForecast(init: seq<Forecast>, f: Forecast, resolution: int, metric: string, keys: set<string>, k: int,
                      i: nat)
    requires resolution > 0 && LatestAbout(init, resolution, metric, keys, k, i)
    ensures About(f, resolution, metric, keys, k) && IssuedAfter(f, init[i]) ==>
      LatestAbout(init + [f], resolution, metric, keys, k, |init|)
    ensures !(About(f, resolution, metric, keys, k) && IssuedAfter(f, init[i])) ==>
      LatestAbout(init + [f], resolution, metric, keys, k, i)
  {
    var fs := init + [f];
    assert forall j :: 0 <= j < |init| ==> fs[j] == init[j];
  }

  lemma LatestAboutUnique(fs: seq<Forecast>, resolution: int, metric: string, keys: set<string>, k: int, i: nat, j: nat)
    requires resolution > 0
    requires LatestAbout(fs, resolution, metric, keys, k, i) && LatestAbout(fs, resolution, metric, keys, k, j)
    ensures i == j
  {}

  /** The latest demand and the latest carbon forecast of the bucket `c` are those at `i` and `j`. */
  ghost predicate ForecastFrom(read: Read, c: int, i: nat, j: nat)
    requires read.resolution > 0
  {
    && LatestAbout(read.forecasts, read.resolution, "demand", {"n", "national", "gb"}, c, i)
    && LatestAbout(read.forecasts, read.resolution, "carbon_intensity", {"gb", "national"}, c, j)
  }

  lemma ForecastAtMeans(read: Read, c: int, s: Sample)
    requires read.resolution > 0
    ensures s in ForecastAt(read, At(read.resolution), c) <==>
      exists i: nat, j: nat :: ForecastFrom(read, c, i, j)
        && s == Forecasted(c, read.forecasts[i].value, read.forecasts[j].value)
  {
    var fs, r := read.forecasts, read.resolution;
    LastForecastAt(fs, r, "demand", DEMAND_KEYS, c);
    LastForecastAt(fs, r, "carbon_intensity", CARBON_KEYS, c);
    var d, m := LastForecast(fs, At(r), "demand", DEMAND_KEYS, c),
      LastForecast(fs, At(r), "carbon_intensity", CARBON_KEYS, c);
    if d.Some? && m.Some? {
      var i: nat :| LatestAbout(fs, r, "demand", DEMAND_KEYS, c, i) && fs[i] == d.value;
      var j: nat :| LatestAbout(fs, r, "carbon_intensity", CARBON_KEYS, c, j) && fs[j] == m.value;
      forall x: nat, y: nat | ForecastFrom(read, c, x, y) ensures x == i && y == j {
        LatestAboutUnique(fs, r, "demand", DEMAND_KEYS, c, x, i);
        LatestAboutUnique(fs, r, "carbon_intensity", CARBON_KEYS, c, y, j);
      }
      assert ForecastFrom(read, c, i, j);
    }
  }

  /** Forecasts start at the first point of the grid after now, and not before the window's first bucket. */
  lemma ForecastStartMeans(read: Read, now: int, c: int)
    requires read.resolution > 0 && OnGrid(c, read.resolution)
    ensures ForecastStart(read, now) <= c <==> now < c * SECOND && Bucket(read.windowStart, read.resolution) <= c
  {
    var m, r := Later(read.windowStart, now), read.resolution;
    var b := Bucket(m, r);
    ForecastStartsAfterNow(read, now);
    BucketOnGrid(m, r);
    BucketHoldsInstant(m, r);
    NotHeldStart(m, r);
    if now < c * SECOND && Bucket(read.windowStart, r) <= c {
      if c < b {
        GridApart(b, c, r);
      } else if b * SECOND <= now && c < b + r {
        GridApart(c, b, r);
      }
    }
  }

  lemma NotHeldStart(t: int, resolution: int)
    requires resolution > 0
    ensures (Bucket(t, resolution) - 1) * SECOND < t || Bucket(t, resolution) * SECOND <= t
  {
    Outside(t, Truncate(t), resolution);
    BucketHoldsInstant(t, resolution);
  }

  /** A forecast sample is presented exactly for the grid points after now in the window's buckets that have both
      forecasts, with the values of the latest of each. */
  lemma ForecastTells(read: Read, now: int, gap: int, s: Sample)
    requires read.resolution > 0 && s.Forecasted?
    ensures s in Samples(read, now, gap) <==>
      && OnGrid(s.timestamp, read.resolution) && now < s.timestamp * SECOND
      && Bucket(read.windowStart, read.resolution) <= s.timestamp <= Bucket(read.windowEnd, read.resolution)
      && exists i: nat, j: nat :: ForecastFrom(read, s.timestamp, i, j)
           && s.demand == read.forecasts[i].value && s.carbon == read.forecasts[j].value
  {
    TimelineShape(read, now, gap);
    ForecastAtMeans(read, s.timestamp, s);
    if OnGrid(s.timestamp, read.resolution) {
      ForecastStartMeans(read, now, s.timestamp);
    }
  }

  // ------------------------------------------------------------------
  // Observed samples
  // ------------------------------------------------------------------

  predicate InBuckets<V>(r: Reading<V>, resolution: int, lo: int, hi: int)
    requires resolution > 0
  {
    lo <= Bucket(r.observedAt, resolution) <= hi
  }

  /** Of the readings in the buckets from `lo` to `hi`, none is observed after the one at `i`, and all listed before it
      are observed before it. */
  ghost predicate LatestReading(rs: seq<Reading<real>>, resolution: int, lo: int, hi: int, i: nat)
    requires resolution > 0
  {
    && i < |rs| && InBuckets(rs[i], resolution, lo, hi)
    && (forall j :: 0 <= j < |rs| && InBuckets(rs[j], resolution, lo, hi) ==>
         rs[j].observedAt <= rs[i].observedAt && (j < i ==> rs[j].observedAt < rs[i].observedAt))
  }

  predicate NoOlderThan<V>(r: Reading<V>, gap: int, c: int) {
    c * 1_000_000 - r.observedAt <= gap * 1_000_000
  }

  /** The reading at `i` is the latest, and recent enough. */
  ghost predicate Current(rs: seq<Reading<real>>, resolution: int, lo: int, c: int, gap: int, i: nat)
    requires resolution > 0
  {
    LatestReading(rs, resolution, lo, c, i) && NoOlderThan(rs[i], gap, c)
  }

  /** `k` is the latest bucket with generation, and every reading in it is recent enough. */
  ghost predicate CurrentBucket(rs: seq<Reading<Fuel>>, resolution: int, lo: int, c: int, gap: int, k: int)
    requires resolution > 0
  {
    && (exists r :: r in rs && Bucket(r.observedAt, resolution) == k) && lo <= k <= c
    && (forall r :: r in rs && InBuckets(r, resolution, lo, c) ==> Bucket(r.observedAt, resolution) <= k)
    && (forall r :: r in rs && Bucket(r.observedAt, resolution) == k ==> NoOlderThan(r, gap, c))
  }

  lemma LastReadingAt(rs: seq<Reading<real>>, resolution: int, lo: int, hi: int)
    requires resolution > 0
    ensures
      var x := Last(rs, At(resolution), lo, hi);
      && (x.None? ==> forall i: nat :: !LatestReading(rs, resolution, lo, hi, i))
      && (x.Some? ==> forall i: nat :: LatestReading(rs, resolution, lo, hi, i) ==> rs[i] == x.value)
      && (x.Some? ==> exists i: nat :: LatestReading(rs, resolution, lo, hi, i))
  {
    var bucket := At(resolution);
    LastIsNewest(rs, bucket, lo, hi);
    LastIsFirst(rs, bucket, lo, hi);
    assert forall r :: r in rs ==> (InRange(r, bucket, lo, hi) <==> InBuckets(r, resolution, lo, hi));
    var x := Last(rs, bucket, lo, hi);
    if x.Some? {
      var i: int :| FirstAt(rs, bucket, lo, hi, i, x.value);
      FirstIsLatest(rs, resolution, lo, hi, i, x.value);
      forall j: nat | LatestReading(rs, resolution, lo, hi, j) ensures j == i {
        LatestReadingUnique(rs, resolution, lo, hi, i, j);
      }
    } else {
      forall i: nat | i < |rs| ensures !InBuckets(rs[i], resolution, lo, hi) {
        assert rs[i] in rs;
      }
    }
  }

  lemma LatestReadingUnique(rs: seq<Reading<real>>, resolution: int, lo: int, hi: int, i: nat, j: nat)
    requires resolution > 0 && LatestReading(rs, resolution, lo, hi, i) && LatestReading(rs, resolution, lo, hi, j)
    ensures i == j
  {}

  lemma FirstIsLatest(rs: seq<Reading<real>>, resolution: int, lo: int, hi: int, i: nat, x: Reading<real>)
    requires resolution > 0 && FirstAt(rs, At(resolution), lo, hi, i, x) && Newest(rs, At(resolution), lo, hi, x)
    ensures LatestReading(rs, resolution, lo, hi, i)
  {
    forall j | 0 <= j < |rs| && InBuckets(rs[j], resolution, lo, hi)
      ensures rs[j].observedAt <= rs[i].observedAt && (j < i ==> rs[j].observedAt < rs[i].observedAt)
    {
      assert rs[j] in rs && InRange(rs[j], At(resolution), lo, hi);
      assert j < i ==> rs[..i][j] in rs[..i];
    }
  }

  lemma CurrentMeans(rs: seq<Reading<real>>, resolution: int, lo: int, c: int, gap: int)
    requires resolution > 0
    ensures
      var x := Last(rs, At(resolution), lo, c);
      && (x.Some? && Within(x.value, gap, c) <==> exists i: nat :: Current(rs, resolution, lo, c, gap, i))
      && (forall i: nat :: Current(rs, resolution, lo, c, gap, i) ==> x == Some(rs[i]))
  {
    LastReadingAt(rs, resolution, lo, c);
    var x := Last(rs, At(resolution), lo, c);
    if x.Some? && Within(x.value, gap, c) {
      var i: nat :| LatestReading(rs, resolution, lo, c, i);
      assert Current(rs, resolution, lo, c, gap, i);
    }
  }

  lemma BucketReadings(rs: seq<Reading<Fuel>>, resolution: int, k: int)
    requires resolution > 0
    ensures forall r :: r in InBucket(rs, At(resolution), k) <==> r in rs && Bucket(r.observedAt, resolution) == k
    ensures InBucket(rs, At(resolution), k) != [] <==> exists r :: r in rs && Bucket(r.observedAt, resolution) == k
  {
    InBucketIs(rs, At(resolution), k);
    if InBucket(rs, At(resolution), k) != [] {
      assert InBucket(rs, At(resolution), k)[0] in InBucket(rs, At(resolution), k);
    }
  }

  lemma CurrentBucketMeans(rs: seq<Reading<Fuel>>, resolution: int, lo: int, c: int, gap: int)
    requires resolution > 0
    ensures
      var g := LastBucket(rs, At(resolution), lo, c);
      && (g != [] && (forall r :: r in g ==> Within(r, gap, c)) <==>
           exists k :: CurrentBucket(rs, resolution, lo, c, gap, k))
      && (forall k :: CurrentBucket(rs, resolution, lo, c, gap, k) ==> g == InBucket(rs, At(resolution), k))
  {
    var bucket := At(resolution);
    var g, last := LastBucket(rs, bucket, lo, c), Last(rs, bucket, lo, c);
    AtLands(resolution);
    LastIsNewest(rs, bucket, lo, c);
    forall k | CurrentBucket(rs, resolution, lo, c, gap, k) ensures g == InBucket(rs, bucket, k) && g != [] {
      CurrentIsLast(rs, resolution, lo, c, gap, k);
    }
    if last.Some? {
      var k := Bucket(last.value.observedAt, resolution);
      BucketReadings(rs, resolution, k);
      forall r | r in rs && InBuckets(r, resolution, lo, c) ensures Bucket(r.observedAt, resolution) <= k {
        assert InRange(r, bucket, lo, c);
        BucketMonotone(r.observedAt, last.value.observedAt, resolution);
      }
      if forall r :: r in g ==> Within(r, gap, c) {
        assert CurrentBucket(rs, resolution, lo, c, gap, k);
      }
    }
    if k :| CurrentBucket(rs, resolution, lo, c, gap, k) {
      BucketReadings(rs, resolution, k);
      assert forall r :: r in g ==> NoOlderThan(r, gap, c);
    }
  }

  lemma CurrentIsLast(rs: seq<Reading<Fuel>>, resolution: int, lo: int, c: int, gap: int, k: int)
    requires resolution > 0 && CurrentBucket(rs, resolution, lo, c, gap, k)
    ensures LastBucket(rs, At(resolution), lo, c) == InBucket(rs, At(resolution), k) != []
  {
    var bucket := At(resolution);
    var last := Last(rs, bucket, lo, c);
    LastIsNewest(rs, bucket, lo, c);
    BucketReadings(rs, resolution, k);
    var r :| r in rs && Bucket(r.observedAt, resolution) == k;
    assert InRange(r, bucket, lo, c);
    assert InBuckets(last.value, resolution, lo, c);
    BucketMonotone(r.observedAt, last.value.observedAt, resolution);
  }

  /** What is current at the grid point: a demand, a carbon reading and a bucket of generation. */
  ghost predicate ObservedFrom(read: Read, c: int, gap: int, i: nat, j: nat, k: int)
    requires read.resolution > 0
  {
    var r, lo := read.resolution, Bucket(read.windowStart, read.resolution);
    && Current(read.demand, r, lo, c, gap, i) && Current(read.carbon, r, lo, c, gap, j)
    && CurrentBucket(read.generation, r, lo, c, gap, k)
  }

  lemma HeldMeans(read: Read, c: int, gap: int)
    requires read.resolution > 0
    ensures
      var h := HeldAt(read, At(read.resolution), Bucket(read.windowStart, read.resolution), c);
      && (Ready(h, gap, c) <==> exists i: nat, j: nat, k :: ObservedFrom(read, c, gap, i, j, k))
      && (forall i: nat, j: nat, k :: ObservedFrom(read, c, gap, i, j, k) ==>
           && h.demand == Some(read.demand[i]) && h.carbon == Some(read.carbon[j])
           && h.generation == InBucket(read.generation, At(read.resolution), k))
  {
    var r, lo := read.resolution, Bucket(read.windowStart, read.resolution);
    CurrentMeans(read.demand, r, lo, c, gap);
    CurrentMeans(read.carbon, r, lo, c, gap);
    CurrentBucketMeans(read.generation, r, lo, c, gap);
    if Ready(HeldAt(read, At(r), lo, c), gap, c) {
      var i: nat :| Current(read.demand, r, lo, c, gap, i);
      var j: nat :| Current(read.carbon, r, lo, c, gap, j);
      var k :| CurrentBucket(read.generation, r, lo, c, gap, k);
      assert ObservedFrom(read, c, gap, i, j, k);
    }
  }

  /** The sample has the current demand and carbon, the mix of the current bucket of generation, and a frequency exactly
      when there is a current one. */
  ghost predicate Carried(read: Read, gap: int, s: Sample, i: nat, j: nat, k: int)
    requires read.resolution > 0 && s.Observed?
  {
    var r, lo := read.resolution, Bucket(read.windowStart, read.resolution);
    && ObservedFrom(read, s.timestamp, gap, i, j, k)
    && s.demand == read.demand[i].value && s.carbon == read.carbon[j].value
    && s.generation == Mix(Fuels(InBucket(read.generation, At(r), k)))
    && (s.frequency.Some? <==> exists n: nat :: Current(read.frequency, r, lo, s.timestamp, gap, n))
    && (forall n: nat :: Current(read.frequency, r, lo, s.timestamp, gap, n) ==>
         s.frequency == Some(read.frequency[n].value))
  }

  lemma CarriedUnique(read: Read, gap: int, s: Sample, t: Sample, i: nat, j: nat, k: int, x: nat, y: nat, z: int)
    requires read.resolution > 0 && s.Observed? && t.Observed? && s.timestamp == t.timestamp
    requires Carried(read, gap, s, i, j, k) && Carried(read, gap, t, x, y, z)
    ensures s == t
  {
    var r, lo := read.resolution, Bucket(read.windowStart, read.resolution);
    LatestReadingUnique(read.demand, r, lo, s.timestamp, i, x);
    LatestReadingUnique(read.carbon, r, lo, s.timestamp, j, y);
    CurrentIsLast(read.generation, r, lo, s.timestamp, gap, k);
    CurrentIsLast(read.generation, r, lo, s.timestamp, gap, z);
    if s.frequency.Some? {
      var n: nat :| Current(read.frequency, r, lo, s.timestamp, gap, n);
    }
  }

  lemma SampleCarries(read: Read, gap: int, c: int)
    requires read.resolution > 0
    requires Ready(HeldAt(read, At(read.resolution), Bucket(read.windowStart, read.resolution), c), gap, c)
    ensures
      var s := SampleOf(HeldAt(read, At(read.resolution), Bucket(read.windowStart, read.resolution), c), gap, c);
      exists i: nat, j: nat, k :: Carried(read, gap, s, i, j, k)
  {
    var r, lo := read.resolution, Bucket(read.windowStart, read.resolution);
    HeldMeans(read, c, gap);
    CurrentMeans(read.frequency, r, lo, c, gap);
    var i: nat, j: nat, k :| ObservedFrom(read, c, gap, i, j, k);
    var s := SampleOf(HeldAt(read, At(r), lo, c), gap, c);
    assert Carried(read, gap, s, i, j, k);
  }

  /** An observed sample is presented exactly for the grid points up to now in the window's buckets at which demand,
      carbon and generation are current, with what is current there. */
  lemma ObservedTells(read: Read, now: int, gap: int, s: Sample)
    requires read.resolution > 0 && s.Observed?
    ensures s in Samples(read, now, gap) <==>
      && OnGrid(s.timestamp, read.resolution) && s.timestamp * SECOND <= now
      && Bucket(read.windowStart, read.resolution) <= s.timestamp <= Bucket(read.windowEnd, read.resolution)
      && exists i: nat, j: nat, k :: Carried(read, gap, s, i, j, k)
  {
    var lo, c := Bucket(read.windowStart, read.resolution), s.timestamp;
    var held := HeldAt(read, At(read.resolution), lo, c);
    TimelineShape(read, now, gap);
    HeldMeans(read, c, gap);
    if Ready(held, gap, c) {
      SampleCarries(read, gap, c);
      var t := SampleOf(held, gap, c);
      var x: nat, y: nat, z :| Carried(read, gap, t, x, y, z);
      if i: nat, j: nat, k :| Carried(read, gap, s, i, j, k) {
        CarriedUnique(read, gap, s, t, i, j, k, x, y, z);
      }
    }
  }
}
