/** What the timeline's samples are, and how they lie in time. */
module TimelineLaws {
  import opened FuelMix
  import opened TimelineBuckets
  import opened Timeline

  /** An observed sample of the cursor it is stamped with. */
  ghost predicate SampleAt(read: Read, bucket: Bucketing, now: int, gap: int, first: int, s: Sample) {
    var c := s.timestamp;
    && first <= c && c * SECOND <= now
    && Ready(HeldAt(read, bucket, first, c), gap, c)
    && s == SampleOf(HeldAt(read, bucket, first, c), gap, c)
  }

  ghost predicate Increasing(samples: seq<Sample>) {
    forall i, j :: 0 <= i < j < |samples| ==> samples[i].timestamp < samples[j].timestamp
  }

  lemma IncreasingAppend(a: seq<Sample>, b: seq<Sample>)
    requires Increasing(a) && Increasing(b)
    requires forall s, t :: s in a && t in b ==> s.timestamp < t.timestamp
    ensures Increasing(a + b)
  {
    var all := a + b;
    forall i, j | 0 <= i < j < |all| ensures all[i].timestamp < all[j].timestamp {
      if i < |a| <= j {
        assert all[i] in a && all[j] in b;
      }
    }
  }

  /** The observed samples are those of the cursors up to the end that are due and ready, in order. */
  lemma {:induction false} ObservedAre(read: Read, bucket: Bucketing, grid: int -> bool, now: int, gap: int, first: int,
                                       c: int)
    requires Cursors(grid, bucket, read.resolution) && grid(c)
    ensures forall s: Sample :: s in ObservedTo(read, bucket, now, gap, first, c) <==>
      grid(s.timestamp) && s.timestamp <= c && SampleAt(read, bucket, now, gap, first, s)
    ensures Increasing(ObservedTo(read, bucket, now, gap, first, c))
    decreases c - first + read.resolution
  {
    if first <= c {
      var earlier := c - read.resolution;
      assert grid(earlier);
      ObservedAre(read, bucket, grid, now, gap, first, earlier);
      ObservedStep(read, bucket, now, gap, first, c);
      OwnSample(read, bucket, now, gap, first, c);
      IncreasingAppend(ObservedTo(read, bucket, now, gap, first, earlier),
                       ObservedAt(read, bucket, now, gap, first, c));
      assert forall d :: grid(d) && d <= c ==> d <= earlier || d == c;
    }
  }

  lemma OwnSample(read: Read, bucket: Bucketing, now: int, gap: int, first: int, c: int)
    requires read.resolution > 0 && first <= c
    ensures forall s: Sample :: s in ObservedAt(read, bucket, now, gap, first, c) <==>
      s.timestamp == c && SampleAt(read, bucket, now, gap, first, s)
    ensures Increasing(ObservedAt(read, bucket, now, gap, first, c))
  {}

  lemma {:induction false} ForecastsAre(read: Read, bucket: Bucketing, grid: int -> bool, first: int, c: int)
    requires Cursors(grid, bucket, read.resolution) && grid(c)
    ensures forall s: Sample :: s in ForecastTo(read, bucket, first, c) <==>
      grid(s.timestamp) && first <= s.timestamp <= c && s in ForecastAt(read, bucket, s.timestamp)
    ensures Increasing(ForecastTo(read, bucket, first, c))
    decreases c - first + read.resolution
  {
    if first <= c {
      var earlier := c - read.resolution;
      assert grid(earlier);
      ForecastsAre(read, bucket, grid, first, earlier);
      IncreasingAppend(ForecastTo(read, bucket, first, earlier), ForecastAt(read, bucket, c));
      forall s: Sample | grid(s.timestamp) && first <= s.timestamp <= c
        ensures s.timestamp <= earlier || s.timestamp == c {}
    }
  }

  /** Forecast cursors start on the grid, after now and not before the window's first bucket. */
  lemma ForecastStartsAfterNow(read: Read, now: int)
    requires read.resolution > 0
    ensures ForecastStart(read, now) * SECOND > now
    ensures OnGrid(ForecastStart(read, now), read.resolution)
    ensures Bucket(read.windowStart, read.resolution) <= ForecastStart(read, now)
  {
    var m, r := Later(read.windowStart, now), read.resolution;
    BucketOnGrid(m, r);
    BucketMonotone(now, m, r);
    BucketMonotone(read.windowStart, m, r);
    BucketHoldsInstant(now, r);
    GridStep(Bucket(m, r), r);
  }

  /** The timeline is strictly increasing on the resolution grid within the window's buckets; observed
      samples are no later than now, forecast samples later; and it has every sample that is due and ready. */
  lemma TimelineShape(read: Read, now: int, gap: int)
    requires read.resolution > 0
    ensures Increasing(Samples(read, now, gap))
    ensures forall s :: s in Samples(read, now, gap) <==>
      && OnGrid(s.timestamp, read.resolution)
      && Bucket(read.windowStart, read.resolution) <= s.timestamp <= Bucket(read.windowEnd, read.resolution)
      && if s.Observed? then SampleAt(read, At(read.resolution), now, gap, Bucket(read.windowStart, read.resolution), s)
         else ForecastStart(read, now) <= s.timestamp && s in ForecastAt(read, At(read.resolution), s.timestamp)
    ensures forall s :: s in Samples(read, now, gap) ==> if s.Observed? then s.timestamp * SECOND <= now
      else now < s.timestamp * SECOND
  {
    var r := read.resolution;
    var bucket, grid := At(r), Multiples(r);
    var first, start, end := Bucket(read.windowStart, r), ForecastStart(read, now), Bucket(read.windowEnd, r);
    MultiplesAreCursors(r);
    BucketOnGrid(read.windowEnd, r);
    ForecastStartsAfterNow(read, now);
    ObservedAre(read, bucket, grid, now, gap, first, end);
    ForecastsAre(read, bucket, grid, start, end);
    IncreasingAppend(ObservedTo(read, bucket, now, gap, first, end), ForecastTo(read, bucket, start, end));
  }

  // ------------------------------------------------------------------
  // What a sample carries
  // ------------------------------------------------------------------

  /** The newest reading up to the cursor is no older than the gap. */
  ghost predicate FreshNewest(rs: seq<Reading<real>>, bucket: Bucketing, first: int, c: int, gap: int) {
    exists x :: Newest(rs, bucket, first, c, x) && Within(x, gap, c)
  }

  /** The latest non-empty bucket up to the cursor has no reading older than the gap. */
  ghost predicate FreshBucket(rs: seq<Reading<Fuel>>, bucket: Bucketing, first: int, c: int, gap: int) {
    exists k :: Latest(rs, bucket, first, c, k) && InBucket(rs, bucket, k) != []
      && forall r :: r in InBucket(rs, bucket, k) ==> Within(r, gap, c)
  }

  lemma FreshNewestIff(rs: seq<Reading<real>>, bucket: Bucketing, first: int, c: int, gap: int)
    ensures FreshNewest(rs, bucket, first, c, gap) <==>
      Last(rs, bucket, first, c).Some? && Within(Last(rs, bucket, first, c).value, gap, c)
  {
    LastIsNewest(rs, bucket, first, c);
  }

  lemma SomeInBucket(rs: seq<Reading<Fuel>>, bucket: Bucketing, k: int) returns (x: Reading<Fuel>)
    requires InBucket(rs, bucket, k) != []
    ensures x in rs && bucket(x.observedAt) == k
  {
    InBucketEmpty(rs, bucket, k);
    LastIsNewest(rs, bucket, k, k);
    x := Last(rs, bucket, k, k).value;
  }

  lemma LatestUnique(rs: seq<Reading<Fuel>>, bucket: Bucketing, lo: int, hi: int, k: int, l: int)
    requires Latest(rs, bucket, lo, hi, k) && InBucket(rs, bucket, k) != []
    requires Latest(rs, bucket, lo, hi, l) && InBucket(rs, bucket, l) != []
    ensures k == l
  {
    var x := SomeInBucket(rs, bucket, k);
    var y := SomeInBucket(rs, bucket, l);
    assert InRange(x, bucket, lo, hi) && InRange(y, bucket, lo, hi);
  }

  lemma FreshBucketIff(rs: seq<Reading<Fuel>>, bucket: Bucketing, first: int, c: int, gap: int)
    requires Monotone(bucket)
    ensures FreshBucket(rs, bucket, first, c, gap) <==>
      LastBucket(rs, bucket, first, c) != [] && forall g :: g in LastBucket(rs, bucket, first, c) ==> Within(g, gap, c)
  {
    LastBucketIs(rs, bucket, first, c);
    if FreshBucket(rs, bucket, first, c, gap) {
      var k :| Latest(rs, bucket, first, c, k) && InBucket(rs, bucket, k) != []
        && forall r :: r in InBucket(rs, bucket, k) ==> Within(r, gap, c);
      var x := SomeInBucket(rs, bucket, k);
      assert InRange(x, bucket, first, c);
      var l :| Latest(rs, bucket, first, c, l) && LastBucket(rs, bucket, first, c) == InBucket(rs, bucket, l);
      LatestUnique(rs, bucket, first, c, k, l);
    }
  }

  /** A cursor is ready exactly when the newest demand and carbon and the latest bucket of generation up to
      it exist and hold nothing older than the gap. */
  lemma ReadyIff(read: Read, bucket: Bucketing, first: int, c: int, gap: int)
    requires Monotone(bucket)
    ensures Ready(HeldAt(read, bucket, first, c), gap, c) <==>
      && FreshNewest(read.demand, bucket, first, c, gap)
      && FreshNewest(read.carbon, bucket, first, c, gap)
      && FreshBucket(read.generation, bucket, first, c, gap)
  {
    FreshNewestIff(read.demand, bucket, first, c, gap);
    FreshNewestIff(read.carbon, bucket, first, c, gap);
    FreshBucketIff(read.generation, bucket, first, c, gap);
  }

  /** The value of the newest reading up to the cursor, the first listed in a tie. */
  ghost predicate Carries(rs: seq<Reading<real>>, bucket: Bucketing, first: int, c: int, value: real) {
    exists i, x :: FirstAt(rs, bucket, first, c, i, x) && Newest(rs, bucket, first, c, x) && x.value == value
  }

  /** An observed sample carries the newest demand and carbon, the mix of the latest bucket of generation,
      and a frequency exactly when the newest one is no older than the gap. */
  lemma SampleTells(read: Read, bucket: Bucketing, now: int, gap: int, first: int, s: Sample)
    requires Monotone(bucket) && SampleAt(read, bucket, now, gap, first, s)
    ensures Carries(read.demand, bucket, first, s.timestamp, s.demand)
    ensures Carries(read.carbon, bucket, first, s.timestamp, s.carbon)
    ensures s.frequency.Some? <==> FreshNewest(read.frequency, bucket, first, s.timestamp, gap)
    ensures s.frequency.Some? ==> Carries(read.frequency, bucket, first, s.timestamp, s.frequency.value)
    ensures exists k :: (
      Latest(read.generation, bucket, first, s.timestamp, k)
        && s.generation == Mix(Fuels(InBucket(read.generation, bucket, k))))
  {
    CarriesLast(read.demand, bucket, first, s.timestamp);
    CarriesLast(read.carbon, bucket, first, s.timestamp);
    CarriesLast(read.frequency, bucket, first, s.timestamp);
    FreshNewestIff(read.frequency, bucket, first, s.timestamp, gap);
    LastBucketIs(read.generation, bucket, first, s.timestamp);
  }

  lemma CarriesLast(rs: seq<Reading<real>>, bucket: Bucketing, first: int, c: int)
    ensures Last(rs, bucket, first, c).Some? ==> Carries(rs, bucket, first, c, Last(rs, bucket, first, c).value.value)
  {
    LastIsNewest(rs, bucket, first, c);
    LastIsFirst(rs, bucket, first, c);
  }

  /** The last of the observations made in [lo, hi), in whole seconds. */
  ghost predicate LastObservation(rs: seq<Reading<real>>, lo: int, hi: int, x: Reading<real>) {
    && x in rs && lo * SECOND <= x.observedAt < hi * SECOND
    && (forall r :: r in rs && lo * SECOND <= r.observedAt < hi * SECOND ==> r.observedAt <= x.observedAt)
  }

  ghost predicate AllInside(rs: seq<Reading<real>>, resolution: int)
    requires resolution > 0
  {
    forall r :: r in rs ==> Inside(r.observedAt, resolution)
  }

  /** On readings inside their buckets the buckets drop out: the newest up to a cursor is the last observation
      made from the window's first bucket on and before the cursor's own bucket ends. */
  lemma NewestIsLastObservation(rs: seq<Reading<real>>, resolution: int, first: int, c: int, x: Reading<real>)
    requires resolution > 0 && OnGrid(first, resolution) && OnGrid(c, resolution)
    requires AllInside(rs, resolution)
    ensures Newest(rs, At(resolution), first, c, x) <==> LastObservation(rs, first, c + resolution, x)
  {
    forall r | r in rs
      ensures InRange(r, At(resolution), first, c) <==> first * SECOND <= r.observedAt < (c + resolution) * SECOND
    {
      RangeIsTime(r, resolution, first, c);
    }
  }

  /** A reading outside its bucket that no such reading is newer than. */
  ghost predicate NewestLost(rs: seq<Reading<real>>, resolution: int, r: Reading<real>)
    requires resolution > 0
  {
    && r in rs && !Inside(r.observedAt, resolution)
    && (forall y :: y in rs && !Inside(y.observedAt, resolution) ==> y.observedAt <= r.observedAt)
  }

  lemma {:induction false} SomeNewestLost(rs: seq<Reading<real>>, resolution: int)
    requires resolution > 0 && !AllInside(rs, resolution)
    ensures exists r :: NewestLost(rs, resolution, r)
  {
    var init, last := rs[..|rs| - 1], rs[|rs| - 1];
    assert rs == init + [last];
    if AllInside(init, resolution) {
      assert NewestLost(rs, resolution, last);
    } else {
      SomeNewestLost(init, resolution);
      var r :| NewestLost(init, resolution, r);
      var later := !Inside(last.observedAt, resolution) && last.observedAt > r.observedAt;
      assert NewestLost(rs, resolution, if later then last else r);
    }
  }

  /** In the range of buckets just before its own, such a reading is the last observation and is not seen. */
  lemma LostIsOverlooked(rs: seq<Reading<real>>, resolution: int, r: Reading<real>)
    requires resolution > 0 && NewestLost(rs, resolution, r)
    ensures
      var b := Truncate(r.observedAt);
      && OnGrid(b - resolution, resolution)
      && LastObservation(rs, b - resolution, b, r)
      && !Newest(rs, At(resolution), b - resolution, b - resolution, r)
  {
    var b := Truncate(r.observedAt);
    Outside(r.observedAt, b, resolution);
    GridStep(b, resolution);
    forall y | y in rs && (b - resolution) * SECOND <= y.observedAt < b * SECOND
      ensures y.observedAt <= r.observedAt
    {
      Outside(y.observedAt, b, resolution);
    }
  }

  ghost predicate TimelyAt(rs: seq<Reading<real>>, resolution: int, first: int, c: int, x: Reading<real>)
    requires resolution > 0
  {
    OnGrid(first, resolution) && OnGrid(c, resolution) ==>
      (Newest(rs, At(resolution), first, c, x) <==> LastObservation(rs, first, c + resolution, x))
  }

  /** For all cursors the newest reading is the last observation exactly when every
      reading lies inside its bucket. */
  lemma NewestIsLastIff(rs: seq<Reading<real>>, resolution: int)
    requires resolution > 0
    ensures AllInside(rs, resolution) <==> forall first, c, x :: TimelyAt(rs, resolution, first, c, x)
  {
    if AllInside(rs, resolution) {
      forall first, c, x ensures TimelyAt(rs, resolution, first, c, x) {
        if OnGrid(first, resolution) && OnGrid(c, resolution) {
          NewestIsLastObservation(rs, resolution, first, c, x);
        }
      }
    } else {
      SomeNewestLost(rs, resolution);
      var r :| NewestLost(rs, resolution, r);
      LostIsOverlooked(rs, resolution, r);
      var c := Truncate(r.observedAt) - resolution;
      assert !TimelyAt(rs, resolution, c, c, r);
    }
  }
}
